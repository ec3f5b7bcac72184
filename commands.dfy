/** The `commands` package: `PodDisruptor`, the disruptor the command line
    runs. */
module Commands {
  import opened Wrappers
  import opened Pods
  import opened Disruption

  /** `NegativePeriodErr`: the sentinel error of this package. */
  const NegativePeriodErr: Error := Error(1, "period cannot be negative")

  /** Deletes a single victim pod from a list of pods at a regular interval. */
  class PodDisruptor {
    const client: ScriptedClient
    const period: Duration

    /** The struct literal `&PodDisruptor{client: client, period: period}`. */
    constructor (client: ScriptedClient, period: Duration)
      ensures this.client == client && this.period == period
    {
      this.client := client;
      this.period := period;
    }

    /** `Disrupt(ctx, selector)`: the disruption loop. `events` are the cases
        its `select` picks, in order, until the loop returns. */
    method Disrupt(events: seq<Event>, selector: string) returns (outcome: Outcome)
      modifies client
      ensures outcome == Run(selector, events, old(client.script)).outcome
      ensures client.log == old(client.log) + Run(selector, events, old(client.script)).log
      ensures client.script == Run(selector, events, old(client.script)).rest
    {
      outcome := Loop(client, selector, events);
    }
  }

  /** `NewPodDisruptor(client, period)`: rejects a negative period with
      `NegativePeriodErr`; otherwise makes a disruptor holding exactly the
      given client and period. */
  method NewPodDisruptor(client: ScriptedClient, period: Duration) returns (d: PodDisruptor?, err: Option<Error>)
    ensures err == Some(NegativePeriodErr) <==> period < 0
    ensures err.None? <==> period >= 0
    ensures err.Some? ==> d == null
    ensures err.None? ==> d != null && fresh(d) && d.client == client && d.period == period
  {
    err := CheckPeriod(period, NegativePeriodErr);
    if err.Some? {
      return null, err;
    }
    d := new PodDisruptor(client, period);
  }
}
