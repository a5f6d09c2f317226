/** Properties of the connection-helper list and of client_handle_message. */
module CfwLemmas {
  import opened OsTypes
  import opened CfwMessages
  import opened CfwHelpers

  /** Adding a record at a fresh address keeps the addresses distinct, the
      new record is found by its own address, and every other tag finds what
      it found before. */
  lemma OpenAddsFindableRecord(helpers: seq<Helper>, serviceId: nat, events: seq<int>, eventCount: int,
                               cb: Ref, cbData: Ref, addr: nat, tag: Ref)
    requires DistinctAddrs(helpers) && 0 <= eventCount <= |events|
    requires forall j | 0 <= j < |helpers| :: helpers[j].addr != addr
    ensures var hs := OpenServiceHelperEvt(helpers, serviceId, events, eventCount, cb, cbData, addr).0;
      && DistinctAddrs(hs)
      && FindHelper(hs, Ptr(addr)) == Some(|helpers|)
      && (tag != Ptr(addr) ==> FindHelper(hs, tag) == FindHelper(helpers, tag))
  {
    var hs := OpenServiceHelperEvt(helpers, serviceId, events, eventCount, cb, cbData, addr).0;
    var f := FindHelper(helpers, tag);
    if tag != Ptr(addr) && f.Some? {
      FirstMatchIsFound(hs, tag, f.value);
    }
  }

  /** A match at `k` with none before it is what the search returns. */
  lemma FirstMatchIsFound(helpers: seq<Helper>, tag: Ref, k: nat)
    requires k < |helpers| && Matches(helpers[k], tag)
    requires forall j | 0 <= j < k :: !Matches(helpers[j], tag)
    ensures FindHelper(helpers, tag) == Some(k)
  {
  }

  /** Unlinking a record of a list with distinct addresses leaves a list with
      distinct addresses in which that record's address is no longer found,
      while every other record is still there. */
  lemma RemoveForgetsRecord(helpers: seq<Helper>, k: nat)
    requires DistinctAddrs(helpers) && k < |helpers|
    ensures var hs := RemoveAt(helpers, k);
      && DistinctAddrs(hs)
      && FindHelper(hs, Ptr(helpers[k].addr)).None?
      && forall j | 0 <= j < |helpers| && j != k :: helpers[j] in hs
  {
    var hs := RemoveAt(helpers, k);
    forall j | 0 <= j < |helpers| && j != k
      ensures helpers[j] in hs
    {
      if j < k {
        assert hs[j] == helpers[j];
      } else {
        assert hs[j - 1] == helpers[j];
      }
    }
  }

  /** Writing the service connection into a record keeps the addresses. */
  lemma SetConnKeepsDistinct(helpers: seq<Helper>, k: nat, conn: Ref)
    requires DistinctAddrs(helpers) && k < |helpers|
    ensures DistinctAddrs(helpers[k := helpers[k].(serviceConn := conn)])
  {
  }

  /** client_handle_message keeps the record addresses distinct. */
  lemma HandleMessageKeepsDistinct(c: Client, msg: Message, conns: map<nat, ServiceConn>)
    requires WellTyped(msg, conns) && DistinctAddrs(c.helpers)
    ensures DistinctAddrs(HandleMessage(c, msg, conns).helpers)
  {
    var found := FindHelper(c.helpers, msg.priv);
    if found.Some? {
      var k := found.value;
      if msg.id == OpenServiceRsp {
        var hs := c.helpers[k := c.helpers[k].(serviceConn := msg.body.serviceConn)];
        SetConnKeepsDistinct(c.helpers, k, msg.body.serviceConn);
        RemoveForgetsRecord(hs, k);
      } else if msg.id == RegisterEvtRsp {
        RemoveForgetsRecord(c.helpers, k);
      }
    }
  }

  /** The message goes exactly one way: it is consumed when it carries one
      of the four handshake ids and its tag finds a helper; otherwise it goes
      to its own callback when it has one, and to the client's handler when
      it has none. */
  lemma DispatchIsExclusive(c: Client, msg: Message, conns: map<nat, ServiceConn>)
    requires WellTyped(msg, conns)
    ensures var d := HandleMessage(c, msg, conns).dispatch;
      && (d == Consumed <==> IsHandshakeId(msg.id) && FindHelper(c.helpers, msg.priv).Some?)
      && (d.ToMessageCallback? <==> d != Consumed && msg.cb.Ptr?)
      && (d.ToMessageCallback? ==> d.cb == msg.cb)
      && (d.ToClientHandler? <==> d != Consumed && msg.cb.Null?)
      && (d.ToClientHandler? ==> d == ToClientHandler(c.handleMsg, c.data))
  {
  }

  /** No effect of the list is a helper callback. */
  predicate NoCallback(effects: seq<Effect>)
  {
    forall i | 0 <= i < |effects| :: !effects[i].HelperCallback?
  }

  /** A tag that finds no helper changes no record, calls no helper callback
      and is not consumed. */
  lemma UnmatchedTagIsPassedOn(c: Client, msg: Message, conns: map<nat, ServiceConn>)
    requires WellTyped(msg, conns) && FindHelper(c.helpers, msg.priv).None?
    ensures var r := HandleMessage(c, msg, conns);
      && r.helpers == c.helpers
      && NoCallback(r.effects)
      && r.dispatch != Consumed
  {
  }

  /** The last step of a handshake, an open response for a helper with no
      events or an event-registration response, calls that helper's
      callback once, frees its record and consumes the message; the record
      is then gone, so any later message with the same tag calls no callback
      and is passed on. */
  lemma CallbackFiresOnce(c: Client, msg: Message, conns: map<nat, ServiceConn>, k: nat,
                          later: Message, laterConns: map<nat, ServiceConn>)
    requires WellTyped(msg, conns) && DistinctAddrs(c.helpers) && k < |c.helpers|
    requires msg.priv == Ptr(c.helpers[k].addr)
    requires msg.id == RegisterEvtRsp || (msg.id == OpenServiceRsp && c.helpers[k].eventCount <= 0)
    requires WellTyped(later, laterConns) && later.priv == msg.priv
    ensures var r := HandleMessage(c, msg, conns);
      var h := c.helpers[k];
      var conn := if msg.id == OpenServiceRsp then msg.body.serviceConn else h.serviceConn;
      && r.dispatch == Consumed
      && r.effects == [HelperCallback(h.cb, conn, h.cbData), Free(Ptr(h.addr))]
      && r.helpers == RemoveAt(c.helpers, k)
      && var r2 := HandleMessage(Client(c.handleMsg, c.data, r.helpers), later, laterConns);
      && NoCallback(r2.effects) && r2.dispatch != Consumed
  {
    FirstMatchIsFound(c.helpers, msg.priv, k);
    var h := c.helpers[k];
    if msg.id == OpenServiceRsp {
      var hs := c.helpers[k := h.(serviceConn := msg.body.serviceConn)];
      SetConnKeepsDistinct(c.helpers, k, msg.body.serviceConn);
      RemoveForgetsRecord(hs, k);
      assert RemoveAt(hs, k) == RemoveAt(c.helpers, k);
    } else {
      RemoveForgetsRecord(c.helpers, k);
    }
    UnmatchedTagIsPassedOn(Client(c.handleMsg, c.data, RemoveAt(c.helpers, k)), later, laterConns);
  }

  /** The whole handshake of cfw_open_service_helper_evt with events: the
      availability registration response, the availability event, the open
      response and the event-registration response, each tagged with the new
      record. Every one is consumed; the service is opened, the events are
      registered on the connection the open response named, the callback
      fires once with that connection, and the list is back as it was. */
  lemma HandshakeWithEvents(c: Client, conns: map<nat, ServiceConn>, serviceId: nat, events: seq<int>, eventCount: int,
                            cb: Ref, cbData: Ref, addr: nat, m1: Message, m2: Message, m3: Message, m4: Message)
    requires DistinctAddrs(c.helpers) && forall j | 0 <= j < |c.helpers| :: c.helpers[j].addr != addr
    requires 0 < eventCount <= |events|
    requires m1.id == RegisterSvcAvailEvtRsp && m1.priv == Ptr(addr)
    requires m2.id == SvcAvailEvt && m2.priv == Ptr(addr) && m2.body.SvcAvailable?
    requires m3.id == OpenServiceRsp && m3.priv == Ptr(addr) && WellTyped(m3, conns)
    requires m4.id == RegisterEvtRsp && m4.priv == Ptr(addr)
    ensures
      var (hs0, e0) := OpenServiceHelperEvt(c.helpers, serviceId, events, eventCount, cb, cbData, addr);
      var c0 := Client(c.handleMsg, c.data, hs0);
      var r1 := HandleMessage(c0, m1, conns);
      var c1 := Client(c.handleMsg, c.data, r1.helpers);
      var r2 := HandleMessage(c1, m2, r1.conns);
      var c2 := Client(c.handleMsg, c.data, r2.helpers);
      var r3 := HandleMessage(c2, m3, r2.conns);
      var c3 := Client(c.handleMsg, c.data, r3.helpers);
      var r4 := HandleMessage(c3, m4, r3.conns);
      var conn := m3.body.serviceConn;
      && e0 == [RegisterSvcAvailable(serviceId, Ptr(addr))]
      && r1.dispatch == Consumed && r1.effects == [] && r1.helpers == hs0
      && r2.dispatch == Consumed && r2.effects == [OpenServiceConn(m2.body.serviceId, Ptr(addr))] && r2.helpers == hs0
      && r3.dispatch == Consumed && r3.effects == [RegisterEvents(conn, events[..eventCount], Ptr(addr))]
      && r3.conns[conn.addr] == ServiceConn(m3.body.serverHandle, m3.body.port)
      && r4.dispatch == Consumed && r4.effects == [HelperCallback(cb, conn, cbData), Free(Ptr(addr))]
      && r4.helpers == c.helpers
  {
    var (hs0, e0) := OpenServiceHelperEvt(c.helpers, serviceId, events, eventCount, cb, cbData, addr);
    var n := |c.helpers|;
    OpenAddsFindableRecord(c.helpers, serviceId, events, eventCount, cb, cbData, addr, Ptr(addr));
    var hs3 := hs0[n := hs0[n].(serviceConn := m3.body.serviceConn)];
    SetConnKeepsDistinct(hs0, n, m3.body.serviceConn);
    FirstMatchIsFound(hs3, Ptr(addr), n);
    assert RemoveAt(hs3, n) == c.helpers;
  }
}
