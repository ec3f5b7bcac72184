/** The pod directory that the disruption loop talks to: the `DeleterLister`
    interface of the pods package, with a scripted implementation that stands
    for any backend (the Kubernetes service layer or a test double). */
module Pods {

  /** A Go `error` value. Errors made with `errors.New` are compared by
      identity, so two errors with the same text are still different values;
      `id` is that identity. */
  datatype Error = Error(id: nat, message: string)

  /** What one `List(ctx, selector)` call answers: the pod names, or an error.
      When the Go call returns an error its list is never looked at. */
  datatype ListReply = Listed(names: seq<string>) | ListFailed(err: Error)
  {
    /** The call succeeded and returned at least one pod. */
    predicate HasPods() {
      Listed? && |names| > 0
    }
  }

  /** What one `Delete(ctx, name)` call answers: nil, or an error. */
  datatype DeleteReply = Deleted | DeleteFailed(err: Error)

  /** One call made on the directory, with the reply it got. */
  datatype Call =
    | ListCall(selector: string, listed: ListReply)
    | DeleteCall(name: string, deleted: DeleteReply)
  {
    /** The call returned a non-nil error. */
    predicate Failed() {
      (ListCall? && listed.ListFailed?) || (DeleteCall? && deleted.DeleteFailed?)
    }

    /** The error a failed call returned. */
    function Failure(): Error
      requires Failed()
    {
      if ListCall? then listed.err else deleted.err
    }
  }

  /** The replies a directory will give, in order, to the `List` calls and to
      the `Delete` calls made on it. Once a script is used up, the directory
      answers as the test doubles do when they are given no callback: an empty
      list, and a successful delete. */
  datatype Script = Script(lists: seq<ListReply>, deletes: seq<DeleteReply>)
  {
    function ListAnswer(): ListReply {
      if lists == [] then Listed([]) else lists[0]
    }

    function AfterList(): Script {
      if lists == [] then this else this.(lists := lists[1..])
    }

    function DeleteAnswer(): DeleteReply {
      if deletes == [] then Deleted else deletes[0]
    }

    function AfterDelete(): Script {
      if deletes == [] then this else this.(deletes := deletes[1..])
    }
  }

  /** A `DeleterLister` whose answers come from a script. `log` records every
      call made on it, in order, with the reply it gave. */
  class ScriptedClient {
    var script: Script
    var log: seq<Call>

    constructor (script: Script)
      ensures this.script == script && log == []
    {
      this.script := script;
      log := [];
    }

    /** `List(ctx, selector)`: the pod names matching `selector`, or an error. */
    method List(selector: string) returns (reply: ListReply)
      modifies this
      ensures reply == old(script).ListAnswer()
      ensures script == old(script).AfterList()
      ensures log == old(log) + [ListCall(selector, reply)]
    {
      reply := script.ListAnswer();
      script := script.AfterList();
      log := log + [ListCall(selector, reply)];
    }

    /** `Delete(ctx, name)`: removes the pod called `name`, or fails. */
    method Delete(name: string) returns (reply: DeleteReply)
      modifies this
      ensures reply == old(script).DeleteAnswer()
      ensures script == old(script).AfterDelete()
      ensures log == old(log) + [DeleteCall(name, reply)]
    {
      reply := script.DeleteAnswer();
      script := script.AfterDelete();
      log := log + [DeleteCall(name, reply)];
    }
  }
}
