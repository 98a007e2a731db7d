/** Runs of the handlers for one client: any messages from both sides, in any order. */
module GatewayRuns {
  import opened Bytes
  import opened Pipeline
  import opened Gateway

  /** The state before message n of the log. */
  function At(id: Str, log: seq<Item>, n: nat): Node
    requires n <= |log|
  {
    if n == 0 then NewNode(id) else Handle(At(id, log, n - 1), log[n - 1]).st
  }

  /** What is sent on message n. */
  function OutsAt(id: Str, log: seq<Item>, n: nat): seq<Out<Item>>
    requires n < |log|
  {
    Handle(At(id, log, n), log[n]).outs
  }

  /** What is sent on the first n messages, message by message. */
  function Replies(id: Str, log: seq<Item>, n: nat): (rs: seq<seq<Out<Item>>>)
    requires n <= |log|
    ensures |rs| == n && forall j | 0 <= j < n :: rs[j] == OutsAt(id, log, j)
  {
    seq(n, j requires 0 <= j < n => OutsAt(id, log, j))
  }
}
