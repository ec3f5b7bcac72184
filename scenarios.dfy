/** The unit tests' scenarios, stated against the loop model for every
    random roll and every later event. */
module Scenarios {
  import opened Pods
  import opened Disruption

  /** A one-pod listing whose delete succeeds, followed by cancellation:
      that pod is deleted and the loop returns nil, whatever events follow. */
  lemma DeletesPodTakenFromList(selector: string, roll: nat, later: seq<Event>)
    ensures Run(selector, [Elapsed(roll), Done] + later, Script([Listed(["pod1"])], []))
         == Behaviour(ReturnedNil, [ListCall(selector, Listed(["pod1"])), DeleteCall("pod1", Deleted)], Script([], []))
  {
    assert ([Elapsed(roll), Done] + later)[1..] == [Done] + later;
  }

  /** A failing `List` ends the loop on the first tick with that error, and
      no `Delete` is made. */
  lemma ListErrorIsReturned(selector: string, roll: nat, later: seq<Event>, e: Error, deletes: seq<DeleteReply>)
    ensures Run(selector, [Elapsed(roll)] + later, Script([ListFailed(e)], deletes))
         == Behaviour(ReturnedError(e), [ListCall(selector, ListFailed(e))], Script([], deletes))
  {
  }

  /** One pod listed and its delete failing: the loop returns the delete's
      error after exactly one `List` and one `Delete`. */
  lemma DeleteErrorIsReturned(selector: string, pod: string, roll: nat, later: seq<Event>, e: Error)
    ensures Run(selector, [Elapsed(roll)] + later, Script([Listed([pod])], [DeleteFailed(e)]))
         == Behaviour(ReturnedError(e), [ListCall(selector, Listed([pod])), DeleteCall(pod, DeleteFailed(e))], Script([], []))
  {
  }
}
