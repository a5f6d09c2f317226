/** The client side of the CFW: the connection-helper list that
    cfw_open_service_helper_evt fills and client_handle_message drains, and
    the dispatch of each message a client receives. Calls into the rest of
    the framework (registration requests, user callbacks, bfree) are
    recorded as effects, in the order they are made. */
module CfwHelpers {
  import opened OsTypes
  import opened CfwMessages

  /** struct conn_helper_data, with the address balloc gave it. */
  datatype Helper = Helper(
    addr: nat,
    serviceId: nat,
    serviceConn: Ref,
    eventCount: int,
    cb: Ref,
    cbData: Ref,
    events: seq<int>)

  /** The two fields of a client-side cfw_service_conn_t that the open
      response writes. */
  datatype ServiceConn = ServiceConn(serverHandle: Ref, port: nat)

  /** A call out of this code. */
  datatype Effect =
      /** cfw_register_svc_available(client, service_id, helper) */
    | RegisterSvcAvailable(serviceId: nat, priv: Ref)
      /** cfw_open_service_conn(client, service_id, priv) */
    | OpenServiceConn(serviceId: nat, priv: Ref)
      /** cfw_register_events(conn, events, event_count, helper) */
    | RegisterEvents(conn: Ref, events: seq<int>, priv: Ref)
      /** helper->cb(helper->service_conn, helper->cb_data) */
    | HelperCallback(cb: Ref, conn: Ref, cbData: Ref)
      /** bfree(block) */
    | Free(block: Ref)

  /** Where client_handle_message leaves the message. */
  datatype Dispatch =
      /** handled here: bfree(msg) */
    | Consumed
      /** CFW_MESSAGE_CB(msg)(msg) */
    | ToMessageCallback(cb: Ref)
      /** c->handle_msg(msg, c->data) */
    | ToClientHandler(handler: Ref, data: Ref)

  /** No two records of the list share an address. */
  predicate DistinctAddrs(helpers: seq<Helper>)
  {
    forall i, j | 0 <= i < j < |helpers| :: helpers[i].addr != helpers[j].addr
  }

  /** conn_helper_data_check: a record matches the tag that points at it. */
  predicate Matches(h: Helper, tag: Ref)
  {
    tag == Ptr(h.addr)
  }

  /** list_find_first from position `i` with conn_helper_data_check. */
  function FindFrom(helpers: seq<Helper>, tag: Ref, i: nat): (r: Option<nat>)
    requires i <= |helpers|
    ensures r.Some? ==> i <= r.value < |helpers| && Matches(helpers[r.value], tag)
    ensures r.Some? ==> forall j | i <= j < r.value :: !Matches(helpers[j], tag)
    ensures r.None? <==> forall j | i <= j < |helpers| :: !Matches(helpers[j], tag)
    decreases |helpers| - i
  {
    if i == |helpers| then None
    else if Matches(helpers[i], tag) then Some(i)
    else FindFrom(helpers, tag, i + 1)
  }

  /** get_conn_helper: the position of the first record the tag points at. */
  function FindHelper(helpers: seq<Helper>, tag: Ref): (r: Option<nat>)
    ensures r.None? <==> forall j | 0 <= j < |helpers| :: tag != Ptr(helpers[j].addr)
    ensures r.Some? ==> r.value < |helpers| && tag == Ptr(helpers[r.value].addr)
  {
    FindFrom(helpers, tag, 0)
  }

  /** list_remove of the record at position k. */
  function RemoveAt(helpers: seq<Helper>, k: nat): (r: seq<Helper>)
    requires k < |helpers|
    ensures |r| == |helpers| - 1
    ensures forall j | 0 <= j < k :: r[j] == helpers[j]
    ensures forall j | k <= j < |r| :: r[j] == helpers[j + 1]
  {
    helpers[..k] + helpers[k + 1..]
  }

  /** cfw_open_service_helper_evt. `addr` is the block balloc returned (the
      call passes no error pointer and uses the block unchecked); the record
      keeps a copy of the first `eventCount` ids of `events`. Its service
      connection is not written until the open response arrives and is null
      here. */
  function OpenServiceHelperEvt(helpers: seq<Helper>, serviceId: nat, events: seq<int>, eventCount: int,
                                cb: Ref, cbData: Ref, addr: nat): (r: (seq<Helper>, seq<Effect>))
    requires 0 <= eventCount <= |events|
    ensures |r.0| == |helpers| + 1 && r.0[..|helpers|] == helpers
    ensures r.0[|helpers|] == Helper(addr, serviceId, Null, eventCount, cb, cbData, events[..eventCount])
    ensures r.1 == [RegisterSvcAvailable(serviceId, Ptr(addr))]
  {
    (helpers + [Helper(addr, serviceId, Null, eventCount, cb, cbData, events[..eventCount])],
     [RegisterSvcAvailable(serviceId, Ptr(addr))])
  }

  /** cfw_open_service_helper: the same with no events. */
  function OpenServiceHelper(helpers: seq<Helper>, serviceId: nat, cb: Ref, cbData: Ref, addr: nat): (r: (seq<Helper>, seq<Effect>))
    ensures r == OpenServiceHelperEvt(helpers, serviceId, [], 0, cb, cbData, addr)
    ensures r.0[|helpers|].events == []
  {
    OpenServiceHelperEvt(helpers, serviceId, [], 0, cb, cbData, addr)
  }

  /** cfw_open_service_helper_done, and the same three steps inline in the
      REGISTER_EVT_RSP arm: call back, unlink, free. */
  function HelperDone(helpers: seq<Helper>, k: nat): (r: (seq<Helper>, seq<Effect>))
    requires k < |helpers|
    ensures r.0 == RemoveAt(helpers, k)
    ensures r.1 == [HelperCallback(helpers[k].cb, helpers[k].serviceConn, helpers[k].cbData), Free(Ptr(helpers[k].addr))]
  {
    var h := helpers[k];
    (RemoveAt(helpers, k), [HelperCallback(h.cb, h.serviceConn, h.cbData), Free(Ptr(h.addr))])
  }

  /** The client fields client_handle_message reads. */
  datatype Client = Client(handleMsg: Ref, data: Ref, helpers: seq<Helper>)

  /** What client_handle_message leaves behind. */
  datatype Handled = Handled(helpers: seq<Helper>, conns: map<nat, ServiceConn>, effects: seq<Effect>, dispatch: Dispatch)

  /** The message's body has the layout its id implies, and an open response
      names a client connection that exists: the casts and the writes of
      client_handle_message rely on both. */
  predicate WellTyped(msg: Message, conns: map<nat, ServiceConn>)
  {
    && (msg.id == SvcAvailEvt ==> msg.body.SvcAvailable?)
    && (msg.id == OpenServiceRsp ==>
          msg.body.OpenConnRsp? && msg.body.serviceConn.Ptr? && msg.body.serviceConn.addr in conns)
  }

  /** The switch of client_handle_message: the new list, connections and
      effects, and whether a helper took the message. */
  function HandleById(c: Client, msg: Message, conns: map<nat, ServiceConn>): (r: (seq<Helper>, map<nat, ServiceConn>, seq<Effect>, bool))
    requires WellTyped(msg, conns)
    ensures r.3 <==> IsHandshakeId(msg.id) && FindHelper(c.helpers, msg.priv).Some?
    ensures FindHelper(c.helpers, msg.priv).None? ==> r.0 == c.helpers
    ensures msg.id != OpenServiceRsp ==> r.1 == conns
  {
    var found := FindHelper(c.helpers, msg.priv);
    match msg.id
    case RegisterSvcAvailEvtRsp =>
      (c.helpers, conns, [], found.Some?)
    case SvcAvailEvt =>
      if found.Some? then (c.helpers, conns, [OpenServiceConn(msg.body.serviceId, msg.priv)], true)
      else (c.helpers, conns, [], false)
    case OpenServiceRsp =>
      var b := msg.body;
      var conns' := conns[b.serviceConn.addr := ServiceConn(b.serverHandle, b.port)];
      if found.None? then (c.helpers, conns', [], false)
      else
        var k := found.value;
        var h := c.helpers[k].(serviceConn := b.serviceConn);
        var hs := c.helpers[k := h];
        if h.eventCount > 0 then (hs, conns', [RegisterEvents(h.serviceConn, h.events, Ptr(h.addr))], true)
        else
          var (hs', effs) := HelperDone(hs, k);
          (hs', conns', effs, true)
    case RegisterEvtRsp =>
      if found.None? then (c.helpers, conns, [], false)
      else
        var (hs', effs) := HelperDone(c.helpers, found.value);
        (hs', conns, effs, true)
    case CloseServiceRsp =>
      (c.helpers, conns, [Free(msg.conn)], false)
    case OtherId(_) =>
      (c.helpers, conns, [], false)
  }

  /** client_handle_message: the switch, then free a handled message or pass
      it on to its own callback if it has one, else to the client's handler. */
  function HandleMessage(c: Client, msg: Message, conns: map<nat, ServiceConn>): (r: Handled)
    requires WellTyped(msg, conns)
    ensures r.dispatch.ToMessageCallback? ==> r.dispatch.cb == msg.cb && msg.cb.Ptr?
    ensures r.dispatch.ToClientHandler? ==> r.dispatch == ToClientHandler(c.handleMsg, c.data) && msg.cb.Null?
    ensures msg.id.OtherId? ==> r.helpers == c.helpers && r.conns == conns && r.effects == [] && r.dispatch != Consumed
  {
    var (hs, conns', effs, handled) := HandleById(c, msg, conns);
    var d :=
      if handled then Consumed
      else if msg.cb.Ptr? then ToMessageCallback(msg.cb)
      else ToClientHandler(c.handleMsg, c.data);
    Handled(hs, conns', effs, d)
  }

  /** The four handshake ids, the only ones a helper can take. */
  predicate IsHandshakeId(id: MsgId)
  {
    id.RegisterSvcAvailEvtRsp? || id.SvcAvailEvt? || id.OpenServiceRsp? || id.RegisterEvtRsp?
  }
}
