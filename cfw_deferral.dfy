/** The per-service deferred-message list of cfw_defer_message and
    cfw_defer_complete. list_add appends at the tail and list_get takes the
    head, so the list is a sequence with its oldest entry first. */
module CfwDeferral {
  import opened OsTypes
  import opened CfwMessages

  /** struct deferred_message: the balloc'd list node and the message it holds. */
  datatype Deferred = Deferred(node: nat, msg: Message)

  /** What balloc did: handed out a block, or failed with an error. */
  datatype AllocResult = Granted(addr: nat) | Refused(err: OsErr)

  /** How cfw_defer_complete ended: returned a status, or panicked (panic(-1))
      after a failed re-send. */
  datatype Completion = Completed(status: OsErr) | Halted

  /** cfw_defer_message. `msg` is None for a null message. On success the
      queued message carries the queue-head flag. */
  function Defer(deferred: seq<Deferred>, msg: Option<Message>, alloc: AllocResult): (r: (seq<Deferred>, OsErr))
    ensures msg.None? ==> r == (deferred, Err)
    ensures msg.Some? && alloc.Refused? ==> r == (deferred, alloc.err)
    ensures msg.Some? && alloc.Granted? ==>
      r == (deferred + [Deferred(alloc.addr, msg.value.(queueHead := true))], Ok)
  {
    match msg
    case None => (deferred, Err)
    case Some(m) =>
      match alloc
      case Refused(err) => (deferred, err)
      case Granted(a) => (deferred + [Deferred(a, m.(queueHead := true))], Ok)
  }

  /** The effects of one cfw_defer_complete: the list left, the message sent
      (if any), the node freed (if any), and how the call ended. */
  datatype CompleteResult = CompleteResult(deferred: seq<Deferred>, sent: Option<Message>, freed: Option<nat>, outcome: Completion)

  /** cfw_defer_complete. `sendErr` is what cfw_send_message returns. */
  function DeferComplete(deferred: seq<Deferred>, sendErr: OsErr): (r: CompleteResult)
    ensures |deferred| == 0 ==> r == CompleteResult(deferred, None, None, Completed(Ok))
    ensures |deferred| > 0 ==> r.deferred == deferred[1..] && r.sent == Some(deferred[0].msg)
    ensures |deferred| > 0 && sendErr == Ok ==> r.freed == Some(deferred[0].node) && r.outcome == Completed(Ok)
    ensures |deferred| > 0 && sendErr != Ok ==> r.freed == None && r.outcome == Halted
  {
    if |deferred| == 0 then CompleteResult(deferred, None, None, Completed(Ok))
    else
      var dm := deferred[0];
      if sendErr != Ok then CompleteResult(deferred[1..], Some(dm.msg), None, Halted)
      else CompleteResult(deferred[1..], Some(dm.msg), Some(dm.node), Completed(Ok))
  }

  /** cfw_defer_message on each of `ms`, with every allocation granted
      (message i gets node `nodes[i]`). */
  function DeferAll(deferred: seq<Deferred>, ms: seq<Message>, nodes: seq<nat>): (r: seq<Deferred>)
    requires |ms| == |nodes|
  {
    if |ms| == 0 then deferred
    else Defer(DeferAll(deferred, ms[..|ms| - 1], nodes[..|ms| - 1]), Some(ms[|ms| - 1]), Granted(nodes[|ms| - 1])).0
  }

  /** cfw_defer_complete called `k` times with every send succeeding: the
      list left and the messages sent, in order. */
  function CompleteAll(deferred: seq<Deferred>, k: nat): (r: (seq<Deferred>, seq<Message>))
    requires k <= |deferred|
    ensures r.0 == deferred[k..]
    ensures |r.1| == k
  {
    if k == 0 then (deferred, [])
    else
      var (rest, sent) := CompleteAll(deferred, k - 1);
      assert deferred[k - 1..][1..] == deferred[k..];
      var c := DeferComplete(rest, Ok);
      (c.deferred, sent + [c.sent.value])
  }

  lemma {:induction false} DeferAllAppends(deferred: seq<Deferred>, ms: seq<Message>, nodes: seq<nat>)
    requires |ms| == |nodes|
    ensures |DeferAll(deferred, ms, nodes)| == |deferred| + |ms|
    ensures DeferAll(deferred, ms, nodes)[..|deferred|] == deferred
    ensures forall i | 0 <= i < |ms| ::
      DeferAll(deferred, ms, nodes)[|deferred| + i] == Deferred(nodes[i], ms[i].(queueHead := true))
  {
    if |ms| > 0 {
      DeferAllAppends(deferred, ms[..|ms| - 1], nodes[..|ms| - 1]);
    }
  }

  lemma {:induction false} CompleteAllTakesFromHead(deferred: seq<Deferred>, k: nat)
    requires k <= |deferred|
    ensures CompleteAll(deferred, k).0 == deferred[k..]
    ensures |CompleteAll(deferred, k).1| == k
    ensures forall i | 0 <= i < k :: CompleteAll(deferred, k).1[i] == deferred[i].msg
  {
    if k > 0 {
      CompleteAllTakesFromHead(deferred, k - 1);
    }
  }

  /** The list is first in, first out: deferring messages m0 .. m(n-1) onto
      an empty list and completing n times re-sends them in the order they
      were deferred, each with the queue-head flag, and empties the list. */
  lemma DeferredMessagesAreResentInOrder(ms: seq<Message>, nodes: seq<nat>)
    requires |ms| == |nodes|
    ensures var q := DeferAll([], ms, nodes);
      && |q| == |ms|
      && var (rest, sent) := CompleteAll(q, |ms|);
      && rest == []
      && |sent| == |ms|
      && forall i | 0 <= i < |ms| :: sent[i] == ms[i].(queueHead := true)
  {
    DeferAllAppends([], ms, nodes);
    CompleteAllTakesFromHead(DeferAll([], ms, nodes), |ms|);
  }

  /** Defer A, defer B, then two completions: A is sent first, then B. */
  lemma DeferTwoThenCompleteTwo(a: Message, b: Message, na: nat, nb: nat)
    ensures var (q1, e1) := Defer([], Some(a), Granted(na));
      var (q2, e2) := Defer(q1, Some(b), Granted(nb));
      var c1 := DeferComplete(q2, Ok);
      var c2 := DeferComplete(c1.deferred, Ok);
      && e1 == Ok && e2 == Ok
      && c1.sent == Some(a.(queueHead := true)) && c1.freed == Some(na)
      && c2.sent == Some(b.(queueHead := true)) && c2.freed == Some(nb)
      && c2.deferred == []
  {
  }
}
