/** The pod disruption loop shared by `PodDisruptor.Disrupt` and
    `Saboteur.Havoc`: on every tick of the period timer it lists the pods that
    match a selector, deletes one of them picked at random, and stops when the
    context is cancelled or when the directory reports an error. */
module Disruption {
  import opened Wrappers
  import opened Pods

  /** Go's `time.Duration`: a signed 64-bit count of nanoseconds. */
  newtype Duration = d: int | -0x8000_0000_0000_0000 <= d < 0x8000_0000_0000_0000

  /** Which case of the loop's `select` fired: the context's `Done` channel, or
      the period timer. Go picks at random among the cases that are ready, so
      the timer may still win after the context has been cancelled. `roll` is
      the number the random source gives when that tick picks a victim. */
  datatype Event = Done | Elapsed(roll: nat)

  /** How the loop ended: it returned nil (cancellation), it returned an
      error, or it was still waiting when the events ran out. */
  datatype Outcome = Running | ReturnedNil | ReturnedError(err: Error)

  /** What a run of the loop does: how it ends, the calls it makes on the
      directory, and what is left of the directory's script. */
  datatype Behaviour = Behaviour(outcome: Outcome, log: seq<Call>, rest: Script)

  /** The constructors' guard: a negative period is rejected with the
      package's `NegativePeriodErr` sentinel, every other period is accepted. */
  function CheckPeriod(period: Duration, negativePeriodErr: Error): (err: Option<Error>)
    ensures err.None? <==> period >= 0
    ensures err.Some? ==> err.value == negativePeriodErr
  {
    if period < 0 then Some(negativePeriodErr) else None
  }

  /** `rand.Intn(n)`: an index into a list of `n` elements. The random source
      is the parameter `roll`; only the range of the result is modelled. */
  function Intn(n: nat, roll: nat): (i: nat)
    requires n > 0
    ensures i < n
    ensures roll < n ==> i == roll
  {
    roll % n
  }

  /** The calls one timer tick makes, the error that ends the loop if there
      is one, and the script left afterwards. */
  datatype Step = Step(calls: seq<Call>, err: Option<Error>, rest: Script)

  /** The body of the timer case: list the pods matching `selector`; when
      the list is not empty, delete one of them. An error from either call is
      the step's error, and no call follows a failed one. */
  function Tick(selector: string, roll: nat, script: Script): (step: Step)
    ensures 1 <= |step.calls| <= 2
    ensures step.calls[0] == ListCall(selector, script.ListAnswer())
    ensures |step.calls| == 2 <==> script.ListAnswer().HasPods()
    ensures |step.calls| == 2 ==>
      step.calls[1].DeleteCall? && step.calls[1].name in script.ListAnswer().names
    ensures |step.calls| == 2 ==> step.calls[1].deleted == script.AfterList().DeleteAnswer()
    ensures step.rest == if |step.calls| == 2 then script.AfterList().AfterDelete() else script.AfterList()
    ensures step.err.Some? <==> step.calls[|step.calls| - 1].Failed()
    ensures step.err.Some? ==> step.err.value == step.calls[|step.calls| - 1].Failure()
  {
    var listed := script.ListAnswer();
    var afterList := script.AfterList();
    match listed
    case ListFailed(e) => Step([ListCall(selector, listed)], Some(e), afterList)
    case Listed(names) =>
      if |names| == 0 then Step([ListCall(selector, listed)], None, afterList)
      else
        var victim := names[Intn(|names|, roll)];
        var deleted := afterList.DeleteAnswer();
        var err := if deleted.DeleteFailed? then Some(deleted.err) else None;
        Step([ListCall(selector, listed), DeleteCall(victim, deleted)], err, afterList.AfterDelete())
  }

  function Prepend(calls: seq<Call>, b: Behaviour): Behaviour {
    b.(log := calls + b.log)
  }

  /** The loop as a state machine driven by the `select` events: what it does
      with `selector` against a directory answering from `script`. */
  function Run(selector: string, events: seq<Event>, script: Script): Behaviour
    decreases |events|
  {
    if events == [] then Behaviour(Running, [], script)
    else match events[0]
      case Done => Behaviour(ReturnedNil, [], script)
      case Elapsed(roll) =>
        var step := Tick(selector, roll, script);
        if step.err.Some? then Behaviour(ReturnedError(step.err.value), step.calls, step.rest)
        else Prepend(step.calls, Run(selector, events[1..], step.rest))
  }

  /** One turn of `Run`, read off at position `i` of the events. */
  lemma RunAt(selector: string, events: seq<Event>, i: nat, script: Script)
    requires i < |events|
    ensures events[i].Done? ==> Run(selector, events[i..], script) == Behaviour(ReturnedNil, [], script)
    ensures events[i].Elapsed? ==>
      var step := Tick(selector, events[i].roll, script);
      Run(selector, events[i..], script)
        == if step.err.Some? then Behaviour(ReturnedError(step.err.value), step.calls, step.rest)
           else Prepend(step.calls, Run(selector, events[i + 1..], step.rest))
  {
    assert events[i..][0] == events[i] && events[i..][1..] == events[i + 1..];
  }

  lemma PrependTwice(first: seq<Call>, second: seq<Call>, b: Behaviour)
    ensures Prepend(first, Prepend(second, b)) == Prepend(first + second, b)
  {
    assert first + (second + b.log) == (first + second) + b.log;
  }

  /** The timer case of the loop's `select`, run against `client`. */
  method TickOnce(client: ScriptedClient, selector: string, roll: nat) returns (err: Option<Error>)
    modifies client
    ensures var step := Tick(selector, roll, old(client.script));
      err == step.err && client.log == old(client.log) + step.calls && client.script == step.rest
  {
    var listed := client.List(selector);
    if listed.ListFailed? {
      return Some(listed.err);
    }
    if |listed.names| > 0 {
      var victim := listed.names[Intn(|listed.names|, roll)];
      var deleted := client.Delete(victim);
      if deleted.DeleteFailed? {
        return Some(deleted.err);
      }
    }
    return None;
  }

  /** The loop itself, run against `client` until the events run out. */
  method Loop(client: ScriptedClient, selector: string, events: seq<Event>) returns (outcome: Outcome)
    modifies client
    ensures outcome == Run(selector, events, old(client.script)).outcome
    ensures client.log == old(client.log) + Run(selector, events, old(client.script)).log
    ensures client.script == Run(selector, events, old(client.script)).rest
  {
    ghost var spec := Run(selector, events, client.script);
    ghost var log0 := client.log;
    ghost var done: seq<Call> := [];
    assert events[0..] == events;
    var i := 0;
    while i < |events|
      invariant 0 <= i <= |events|
      invariant client.log == log0 + done
      invariant spec == Prepend(done, Run(selector, events[i..], client.script))
    {
      ghost var before := client.script;
      RunAt(selector, events, i, before);
      if events[i].Done? {
        return ReturnedNil;
      }
      var roll := events[i].roll;
      ghost var step := Tick(selector, roll, before);
      var err := TickOnce(client, selector, roll);
      PrependTwice(done, step.calls, Run(selector, events[i + 1..], client.script));
      done := done + step.calls;
      if err.Some? {
        return ReturnedError(err.value);
      }
      i := i + 1;
    }
    return Running;
  }
}
