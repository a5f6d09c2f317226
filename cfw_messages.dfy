/** CFW messages as records, and the constructors cfw_alloc_rsp_msg,
    cfw_alloc_evt_msg and cfw_clone_message. */
module CfwMessages {
  import opened OsTypes

  /** A pointer: null, or the address of a block, object or function. */
  datatype Ref = Null | Ptr(addr: nat)

  /** The header `type` tag. */
  datatype MsgType = TypeReq | TypeRsp | TypeEvt | TypeInt

  /** The message ids that client_handle_message tests for, and every other id. */
  datatype MsgId =
    | RegisterSvcAvailEvtRsp
    | SvcAvailEvt
    | OpenServiceRsp
    | RegisterEvtRsp
    | CloseServiceRsp
    | OtherId(id: int)

  /** What follows the header, for the message kinds whose fields this code reads. */
  datatype Body =
    | Opaque
      /** cfw_svc_available_evt_msg_t */
    | SvcAvailable(serviceId: nat)
      /** cfw_open_conn_rsp_msg_t */
    | OpenConnRsp(serviceConn: Ref, serverHandle: Ref, port: nat, cpuId: nat)

  /** struct cfw_message: the header fields, the queue-head flag of the
      embedded transport message, and the body. */
  datatype Message = Message(
    typ: MsgType, id: MsgId, len: int,
    src: nat, dst: nat,
    cb: Ref, priv: Ref, conn: Ref,
    queueHead: bool,
    body: Body)

  /** cfw_alloc_rsp_msg. `blank` is the block cfw_alloc_message returned,
      with whatever it held; `clientHandle` maps each server-side connection
      handle to its `client_handle` field. The response goes back where the
      request came from and carries its callback, tag and client-side
      connection; the queue-head flag and the body are left as they were. */
  function AllocRspMsg(req: Message, msgId: MsgId, size: int, blank: Message, clientHandle: map<nat, Ref>): (rsp: Message)
    requires req.conn.Ptr? ==> req.conn.addr in clientHandle
    ensures rsp.typ == TypeRsp && rsp.id == msgId && rsp.len == size
    ensures rsp.dst == req.src && rsp.src == req.dst
    ensures rsp.cb == req.cb && rsp.priv == req.priv
    ensures req.conn == Null ==> rsp.conn == Null
    ensures req.conn.Ptr? ==> rsp.conn == clientHandle[req.conn.addr]
    ensures rsp.queueHead == blank.queueHead && rsp.body == blank.body
  {
    blank.(
      typ := TypeRsp, id := msgId, len := size,
      dst := req.src, src := req.dst,
      cb := req.cb, priv := req.priv,
      conn := if req.conn.Ptr? then clientHandle[req.conn.addr] else Null)
  }

  /** cfw_alloc_evt_msg on a service whose port is `svcPort`: destination,
      tag and connection are cleared for the send-event path to fill in; the
      callback field is not written. */
  function AllocEvtMsg(svcPort: nat, msgId: MsgId, size: int, blank: Message): (evt: Message)
    ensures evt.typ == TypeEvt && evt.id == msgId && evt.len == size
    ensures evt.src == svcPort && evt.dst == 0
    ensures evt.priv == Null && evt.conn == Null
    ensures evt.cb == blank.cb && evt.queueHead == blank.queueHead && evt.body == blank.body
  {
    blank.(typ := TypeEvt, id := msgId, len := size, src := svcPort, dst := 0, priv := Null, conn := Null)
  }

  /** cfw_clone_message. `granted` is the block message_alloc returned, or
      None when it returned null; the copy spans the whole message. */
  function CloneMessage(msg: Message, granted: Option<nat>): (r: Option<(nat, Message)>)
    ensures r.None? <==> granted.None?
    ensures r.Some? ==> r.value.0 == granted.value && r.value.1 == msg
  {
    match granted
    case None => None
    case Some(a) => Some((a, msg))
  }

  /** A response to a response goes back along the original route: the
      source and destination are the first message's again, and the callback
      and tag survive both hops. */
  lemma ResponseOfResponse(req: Message, id1: MsgId, id2: MsgId, size1: int, size2: int,
                           blank1: Message, blank2: Message, clientHandle: map<nat, Ref>)
    requires req.conn.Ptr? ==> req.conn.addr in clientHandle
    requires var rsp := AllocRspMsg(req, id1, size1, blank1, clientHandle);
      rsp.conn.Ptr? ==> rsp.conn.addr in clientHandle
    ensures var rsp := AllocRspMsg(req, id1, size1, blank1, clientHandle);
      var back := AllocRspMsg(rsp, id2, size2, blank2, clientHandle);
      && back.src == req.src && back.dst == req.dst
      && back.cb == req.cb && back.priv == req.priv
      && back.typ == TypeRsp
  {
  }
}
