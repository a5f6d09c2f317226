/** service_t and _cfw_client_t as objects whose lists the CFW updates in
    place. Each method is proved to leave the list, and to report the
    effects, that the matching function of CfwDeferral or CfwHelpers
    computes. What the allocator, the transport and the client's connection
    objects do is passed in and out as values. */
module Cfw {
  import opened OsTypes
  import opened CfwMessages
  import opened CfwDeferral
  import opened CfwHelpers

  /** service_t: its port and its deferred-message list. */
  class Service {
    var portId: nat
    var deferred: seq<Deferred>

    /** A registered service: its port, and the list that
        cfw_register_service initialises empty. */
    constructor (port: nat)
      ensures portId == port && deferred == []
    {
      portId, deferred := port, [];
    }

    /** cfw_defer_message */
    method DeferMessage(msg: Option<Message>, alloc: AllocResult) returns (err: OsErr)
      modifies this
      ensures (deferred, err) == Defer(old(deferred), msg, alloc)
      ensures portId == old(portId)
    {
      if msg.None? {
        return Err;
      }
      if alloc.Refused? {
        return alloc.err;
      }
      var dm := Deferred(alloc.addr, msg.value.(queueHead := true));
      deferred := deferred + [dm];
      err := Ok;
    }

    /** cfw_defer_complete; `sendErr` is what cfw_send_message returns. */
    method DeferComplete(sendErr: OsErr) returns (sent: Option<Message>, freed: Option<nat>, outcome: Completion)
      modifies this
      ensures CompleteResult(deferred, sent, freed, outcome) == CfwDeferral.DeferComplete(old(deferred), sendErr)
      ensures portId == old(portId)
    {
      sent, freed := None, None;
      if |deferred| > 0 {
        var dm := deferred[0];
        deferred := deferred[1..];
        sent := Some(dm.msg);
        if sendErr != Ok {
          outcome := Halted;
          return;
        }
        freed := Some(dm.node);
        outcome := Completed(sendErr);
        return;
      }
      outcome := Completed(Ok);
    }
  }

  /** _cfw_client_t: the global handler and its data, the helper list and
      the client's port. */
  class Client {
    var handleMsg: Ref
    var data: Ref
    var helpers: seq<Helper>
    var portId: nat

    function View(): CfwHelpers.Client
      reads this
    {
      CfwHelpers.Client(handleMsg, data, helpers)
    }

    /** cfw_client_init: `port` is what port_alloc returned. */
    constructor (cb: Ref, cbData: Ref, port: nat)
      ensures View() == CfwHelpers.Client(cb, cbData, []) && portId == port
    {
      handleMsg, data := cb, cbData;
      helpers := [];
      portId := port;
    }

    /** cfw_open_service_helper_evt; `addr` is the block balloc returned. */
    method OpenServiceHelperEvt(serviceId: nat, events: seq<int>, eventCount: int, cb: Ref, cbData: Ref, addr: nat)
      returns (effects: seq<Effect>)
      requires 0 <= eventCount <= |events|
      modifies this
      ensures (helpers, effects) == CfwHelpers.OpenServiceHelperEvt(old(helpers), serviceId, events, eventCount, cb, cbData, addr)
      ensures handleMsg == old(handleMsg) && data == old(data) && portId == old(portId)
    {
      var h := Helper(addr, serviceId, Null, eventCount, cb, cbData, events[..eventCount]);
      helpers := helpers + [h];
      effects := [RegisterSvcAvailable(serviceId, Ptr(addr))];
    }

    /** cfw_open_service_helper */
    method OpenServiceHelper(serviceId: nat, cb: Ref, cbData: Ref, addr: nat) returns (effects: seq<Effect>)
      modifies this
      ensures (helpers, effects) == CfwHelpers.OpenServiceHelper(old(helpers), serviceId, cb, cbData, addr)
      ensures handleMsg == old(handleMsg) && data == old(data) && portId == old(portId)
    {
      effects := OpenServiceHelperEvt(serviceId, [], 0, cb, cbData, addr);
    }

    /** cfw_open_service_helper_done on the record at position k. */
    method OpenServiceHelperDone(k: nat) returns (effects: seq<Effect>)
      requires k < |helpers|
      modifies this
      ensures (helpers, effects) == HelperDone(old(helpers), k)
      ensures handleMsg == old(handleMsg) && data == old(data) && portId == old(portId)
    {
      var h := helpers[k];
      var call := HelperCallback(h.cb, h.serviceConn, h.cbData);
      helpers := RemoveAt(helpers, k);
      effects := [call, Free(Ptr(h.addr))];
    }

    /** client_handle_message. `conns` holds the client-side connection
        objects; the result says where the message went. */
    method HandleMessage(msg: Message, conns: map<nat, ServiceConn>)
      returns (connsOut: map<nat, ServiceConn>, effects: seq<Effect>, dispatch: Dispatch)
      requires WellTyped(msg, conns)
      modifies this
      ensures Handled(helpers, connsOut, effects, dispatch) == CfwHelpers.HandleMessage(old(View()), msg, conns)
      ensures handleMsg == old(handleMsg) && data == old(data) && portId == old(portId)
    {
      var handled := false;
      connsOut, effects := conns, [];
      match msg.id {
        case RegisterSvcAvailEvtRsp =>
          if FindHelper(helpers, msg.priv).Some? {
            handled := true;
          }
        case SvcAvailEvt =>
          if FindHelper(helpers, msg.priv).Some? {
            effects := [OpenServiceConn(msg.body.serviceId, msg.priv)];
            handled := true;
          }
        case OpenServiceRsp =>
          var b := msg.body;
          connsOut := conns[b.serviceConn.addr := ServiceConn(b.serverHandle, b.port)];
          var found := FindHelper(helpers, msg.priv);
          if found.Some? {
            var k := found.value;
            helpers := helpers[k := helpers[k].(serviceConn := b.serviceConn)];
            var h := helpers[k];
            if h.eventCount > 0 {
              effects := [RegisterEvents(h.serviceConn, h.events, Ptr(h.addr))];
            } else {
              effects := OpenServiceHelperDone(k);
            }
            handled := true;
          }
        case RegisterEvtRsp =>
          var found := FindHelper(helpers, msg.priv);
          if found.Some? {
            var h := helpers[found.value];
            var call := HelperCallback(h.cb, h.serviceConn, h.cbData);
            helpers := RemoveAt(helpers, found.value);
            effects := [call, Free(Ptr(h.addr))];
            handled := true;
          }
        case CloseServiceRsp =>
          effects := [Free(msg.conn)];
        case OtherId(_) =>
      }
      if handled {
        dispatch := Consumed;
      } else if msg.cb.Ptr? {
        dispatch := ToMessageCallback(msg.cb);
      } else {
        dispatch := ToClientHandler(handleMsg, data);
      }
    }
  }
}
