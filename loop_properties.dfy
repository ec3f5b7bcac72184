/** What the disruption loop promises over a whole run: the calls it makes on
    the directory, in order, and how the way it ends follows from them. */
module LoopProperties {
  import opened Pods
  import opened Wrappers
  import opened Disruption

  /** The number of loop iterations in a call log: every iteration of the
      timer case starts with exactly one `List` call. */
  function Iterations(log: seq<Call>): (n: nat)
    ensures n <= |log|
    ensures log != [] && log[0].ListCall? ==> n > 0
  {
    if log == [] then 0
    else (if log[0].ListCall? then 1 else 0) + Iterations(log[1..])
  }

  lemma {:induction false} IterationsAppend(a: seq<Call>, b: seq<Call>)
    ensures Iterations(a + b) == Iterations(a) + Iterations(b)
  {
    if a == [] {
      assert a + b == b;
    } else {
      assert (a + b)[1..] == a[1..] + b;
      IterationsAppend(a[1..], b);
    }
  }

  /** No call in the log returned an error. */
  predicate Clean(log: seq<Call>) {
    forall i | 0 <= i < |log| :: !log[i].Failed()
  }

  /** Every `List` call in the log was given `selector`. */
  predicate ListsUse(selector: string, log: seq<Call>) {
    forall i | 0 <= i < |log| && log[i].ListCall? :: log[i].selector == selector
  }

  /** Every `List` call receives the caller's selector unchanged. */
  lemma {:induction false} ListsUseSelector(selector: string, events: seq<Event>, script: Script)
    ensures ListsUse(selector, Run(selector, events, script).log)
  {
    if events != [] && events[0].Elapsed? {
      var step := Tick(selector, events[0].roll, script);
      if step.err.None? {
        var rest := Run(selector, events[1..], step.rest);
        ListsUseSelector(selector, events[1..], step.rest);
        assert ListsUse(selector, rest.log);
        var log := step.calls + rest.log;
        forall i | 0 <= i < |log| && log[i].ListCall? ensures log[i].selector == selector {
          if i >= |step.calls| {
            assert log[i] == rest.log[i - |step.calls|];
          }
        }
        assert ListsUse(selector, log);
      }
    }
  }

  /** Each `Delete` comes right after a `List` that succeeded, and names one
      of the pods that `List` returned. */
  predicate VictimsFromLatestList(log: seq<Call>) {
    forall i | 0 <= i < |log| && log[i].DeleteCall? ::
      0 < i && log[i - 1].ListCall? && log[i - 1].listed.Listed? && log[i].name in log[i - 1].listed.names
  }

  /** A `List` that returns pods is followed by a `Delete`, a `Delete` by
      the next `List` if anything, and any other `List` by the next `List` if
      anything: exactly one `Delete` per listing that found pods. */
  predicate OneDeletePerNonEmptyList(log: seq<Call>) {
    (forall i | 0 <= i < |log| && log[i].ListCall? && log[i].listed.HasPods() ::
      i + 1 < |log| && log[i + 1].DeleteCall?) &&
    (forall i | 0 <= i < |log| - 1 && log[i].ListCall? && !log[i].listed.HasPods() ::
      log[i + 1].ListCall?) &&
    (forall i | 0 <= i < |log| - 1 && log[i].DeleteCall? :: log[i + 1].ListCall?)
  }

  /** A failed call is the last one in the log and its error is the one the
      loop returns; the loop returns an error only after a failed call. */
  predicate FailureEndsRun(log: seq<Call>, outcome: Outcome) {
    (forall i | 0 <= i < |log| && log[i].Failed() ::
      i == |log| - 1 && outcome == ReturnedError(log[i].Failure())) &&
    (outcome.ReturnedError? <==> !Clean(log))
  }

  /** A `Delete` is only ever issued right after a `List` that succeeded,
      and the victim is one of the pods that `List` returned. */
  lemma {:induction false} VictimComesFromLatestList(selector: string, events: seq<Event>, script: Script)
    ensures VictimsFromLatestList(Run(selector, events, script).log)
  {
    if events != [] && events[0].Elapsed? {
      var step := Tick(selector, events[0].roll, script);
      if step.err.None? {
        var rest := Run(selector, events[1..], step.rest);
        VictimComesFromLatestList(selector, events[1..], step.rest);
        assert VictimsFromLatestList(rest.log);
        var log := step.calls + rest.log;
        forall i | 0 <= i < |log| && log[i].DeleteCall?
          ensures 0 < i && log[i - 1].ListCall? && log[i - 1].listed.Listed? && log[i].name in log[i - 1].listed.names
        {
          if i >= |step.calls| {
            var j := i - |step.calls|;
            assert log[i] == rest.log[j];
            if j > 0 {
              assert log[i - 1] == rest.log[j - 1];
            }
          }
        }
        assert VictimsFromLatestList(log);
      }
    }
  }

  /** A `List` that returns pods is followed by exactly one `Delete`; a `List`
      that fails or returns no pods is followed by no `Delete` at all. */
  lemma {:induction false} DeleteOnlyAfterNonEmptyList(selector: string, events: seq<Event>, script: Script)
    ensures OneDeletePerNonEmptyList(Run(selector, events, script).log)
  {
    if events != [] && events[0].Elapsed? {
      var step := Tick(selector, events[0].roll, script);
      if step.err.None? {
        var rest := Run(selector, events[1..], step.rest);
        DeleteOnlyAfterNonEmptyList(selector, events[1..], step.rest);
        VictimComesFromLatestList(selector, events[1..], step.rest);
        assert OneDeletePerNonEmptyList(rest.log);
        assert VictimsFromLatestList(rest.log);
        var log := step.calls + rest.log;
        assert rest.log != [] ==> rest.log[0].ListCall?;
        forall i | 0 <= i < |log| && log[i].ListCall? && log[i].listed.HasPods()
          ensures i + 1 < |log| && log[i + 1].DeleteCall?
        {
          if i >= |step.calls| {
            assert log[i] == rest.log[i - |step.calls|];
            assert log[i + 1] == rest.log[i + 1 - |step.calls|];
          } else {
            assert log[1] == step.calls[1];
          }
        }
        forall i | 0 <= i < |log| - 1 && log[i].ListCall? && !log[i].listed.HasPods()
          ensures log[i + 1].ListCall?
        {
          assert log[i + 1] == rest.log[i + 1 - |step.calls|];
          if i >= |step.calls| {
            assert log[i] == rest.log[i - |step.calls|];
          }
        }
        forall i | 0 <= i < |log| - 1 && log[i].DeleteCall? ensures log[i + 1].ListCall? {
          assert log[i + 1] == rest.log[i + 1 - |step.calls|];
          if i >= |step.calls| {
            assert log[i] == rest.log[i - |step.calls|];
          }
        }
        assert OneDeletePerNonEmptyList(log);
      }
    }
  }

  /** A failed call is the last call the loop makes, and the loop returns
      exactly the error that call returned; the loop returns an error only
      that way. */
  lemma {:induction false} ErrorsEndTheLoop(selector: string, events: seq<Event>, script: Script)
    ensures var b := Run(selector, events, script); FailureEndsRun(b.log, b.outcome)
  {
    if events != [] && events[0].Elapsed? {
      var step := Tick(selector, events[0].roll, script);
      if step.err.None? {
        var rest := Run(selector, events[1..], step.rest);
        ErrorsEndTheLoop(selector, events[1..], step.rest);
        assert FailureEndsRun(rest.log, rest.outcome);
        var log := step.calls + rest.log;
        assert Clean(step.calls);
        forall i | 0 <= i < |log| && log[i].Failed()
          ensures i == |log| - 1 && rest.outcome == ReturnedError(log[i].Failure())
        {
          if i >= |step.calls| {
            assert log[i] == rest.log[i - |step.calls|];
          }
        }
        if !Clean(rest.log) {
          var j :| 0 <= j < |rest.log| && rest.log[j].Failed();
          assert log[|step.calls| + j] == rest.log[j];
        }
        assert FailureEndsRun(log, rest.outcome);
      } else {
        assert step.calls[|step.calls| - 1].Failed();
        assert !Clean(step.calls);
      }
    }
  }

  /** How the loop ends follows from its calls: a run without a failed call
      makes one `List` per timer event it consumes; it returns nil exactly
      when the event after those is the context's `Done`, and it is still
      running exactly when every event was a timer event. */
  lemma {:induction false} OutcomeFollowsEvents(selector: string, events: seq<Event>, script: Script)
    ensures var b := Run(selector, events, script);
      Iterations(b.log) <= |events| &&
      forall k | 0 <= k < Iterations(b.log) :: events[k].Elapsed?
    ensures var b := Run(selector, events, script);
      b.outcome.ReturnedNil? <==>
        Clean(b.log) && Iterations(b.log) < |events| && events[Iterations(b.log)].Done?
    ensures var b := Run(selector, events, script);
      b.outcome.Running? <==> Clean(b.log) && Iterations(b.log) == |events|
  {
    ErrorsEndTheLoop(selector, events, script);
    if events != [] && events[0].Elapsed? {
      var step := Tick(selector, events[0].roll, script);
      assert Iterations(step.calls) == 1 by {
        assert step.calls[1..] == [] || step.calls[1..] == [step.calls[1]];
      }
      if step.err.None? {
        var rest := Run(selector, events[1..], step.rest);
        OutcomeFollowsEvents(selector, events[1..], step.rest);
        ErrorsEndTheLoop(selector, events[1..], step.rest);
        IterationsAppend(step.calls, rest.log);
        forall k | 0 <= k < Iterations(rest.log) + 1 ensures events[k].Elapsed? {
          if k > 0 {
            assert events[k] == events[1..][k - 1];
          }
        }
        assert events[Iterations(rest.log) + 1..] == events[1..][Iterations(rest.log)..];
      } else {
        assert !Clean(step.calls);
      }
    }
  }

  /** A context that is already cancelled when the loop starts: whichever
      case the `select` picks, the loop against the test double with no
      callbacks never deletes and returns nil once `Done` is picked; when
      `Done` is picked first, it returns nil before any call is made. */
  lemma {:induction false} PreCancelledContext(selector: string, events: seq<Event>, script: Script)
    ensures Done in events ==>
      var b := Run(selector, events, Script([], []));
      b.outcome == ReturnedNil && forall i | 0 <= i < |b.log| :: b.log[i] == ListCall(selector, Listed([]))
    ensures events != [] && events[0] == Done ==>
      Run(selector, events, script) == Behaviour(ReturnedNil, [], script)
  {
    EmptyListsNeverDelete(selector, events, Script([], []));
  }

  /** Against a directory whose every listing is empty, the loop never
      deletes and never fails: it lists once per timer event, with the
      caller's selector, until the context's `Done` case is picked. */
  lemma {:induction false} EmptyListsNeverDelete(selector: string, events: seq<Event>, script: Script)
    requires forall k | 0 <= k < |script.lists| :: script.lists[k] == Listed([])
    ensures var b := Run(selector, events, script);
      forall i | 0 <= i < |b.log| :: b.log[i] == ListCall(selector, Listed([]))
    ensures var b := Run(selector, events, script);
      !b.outcome.ReturnedError? && (b.outcome.ReturnedNil? <==> Done in events)
    ensures var b := Run(selector, events, script);
      |b.log| <= |events| && (forall k | 0 <= k < |b.log| :: events[k].Elapsed?) &&
      (|b.log| < |events| ==> events[|b.log|].Done?)
  {
    if events != [] && events[0].Elapsed? {
      var step := Tick(selector, events[0].roll, script);
      assert script.ListAnswer() == Listed([]);
      assert step == Step([ListCall(selector, Listed([]))], None, script.AfterList());
      var after := script.AfterList();
      assert forall k | 0 <= k < |after.lists| :: after.lists[k] == Listed([]) by {
        if script.lists != [] {
          forall k | 0 <= k < |after.lists| ensures after.lists[k] == Listed([]) {
            assert after.lists[k] == script.lists[k + 1];
          }
        }
      }
      var rest := Run(selector, events[1..], after);
      EmptyListsNeverDelete(selector, events[1..], after);
      var log := step.calls + rest.log;
      forall i | 0 <= i < |log| ensures log[i] == ListCall(selector, Listed([])) {
        if i > 0 {
          assert log[i] == rest.log[i - 1];
        }
      }
      forall k | 0 <= k < |log| ensures events[k].Elapsed? {
        if k > 0 {
          assert events[k] == events[1..][k - 1];
        }
      }
      if |log| < |events| {
        assert events[|log|] == events[1..][|rest.log|];
      }
      assert Done in events <==> Done in events[1..] by {
        assert events == [events[0]] + events[1..];
      }
    }
  }
}
