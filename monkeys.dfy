/** The `monkeys` package: `Saboteur`, a copy of the disruptor under
    another name, with the same guard and the same loop. */
module Monkeys {
  import opened Wrappers
  import opened Pods
  import opened Disruption

  /** `NegativePeriodErr`: the sentinel error of this package. */
  const NegativePeriodErr: Error := Error(2, "period cannot be negative")

  /** Deletes a single pod from the set returned by the pods client at a regular
      interval. */
  class Saboteur {
    const client: ScriptedClient
    const period: Duration

    /** The struct literal `&Saboteur{client: client, period: period}`. */
    constructor (client: ScriptedClient, period: Duration)
      ensures this.client == client && this.period == period
    {
      this.client := client;
      this.period := period;
    }

    /** `Havoc(ctx, selector)`: the disruption loop. `events` are the cases
        its `select` picks, in order, until the loop returns. */
    method Havoc(events: seq<Event>, selector: string) returns (outcome: Outcome)
      modifies client
      ensures outcome == Run(selector, events, old(client.script)).outcome
      ensures client.log == old(client.log) + Run(selector, events, old(client.script)).log
      ensures client.script == Run(selector, events, old(client.script)).rest
    {
      outcome := Loop(client, selector, events);
    }
  }

  /** `NewSaboteur(client, period)`: rejects a negative period with
      `NegativePeriodErr`; otherwise makes a saboteur holding exactly the
      given client and period. */
  method NewSaboteur(client: ScriptedClient, period: Duration) returns (s: Saboteur?, err: Option<Error>)
    ensures err == Some(NegativePeriodErr) <==> period < 0
    ensures err.None? <==> period >= 0
    ensures err.Some? ==> s == null
    ensures err.None? ==> s != null && fresh(s) && s.client == client && s.period == period
  {
    err := CheckPeriod(period, NegativePeriodErr);
    if err.Some? {
      return null, err;
    }
    s := new Saboteur(client, period);
  }
}
