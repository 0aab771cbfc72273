/**
 The control service that pkg/qmi/qrtr_transport_linux.go simulates locally, because QRTR has none: client ID
 allocation and release and the sync request are answered with synthesised control frames. The two ends
 of each exchange are the request the client marshals and the reply the client decodes.
 */
module ControlService {
  import opened Bytes
  import opened Frame
  import opened Envelope

  const CTL_GET_CLIENT_ID := 0x0022
  const CTL_RELEASE_CLIENT_ID := 0x0023
  const CTL_SYNC := 0x0027
  const ERR_MALFORMED_MSG := 0x0001
  const ERR_DEVICE_NOT_READY := 0x0005

  /** Service identifiers above 0xFF use the two-octet form. */
  function EncodeServiceClient(service: U16, client: Byte): Tlv {
    if service <= 0xFF then Tlv(0x01, [service, client])
    else Tlv(0x01, [service % 0x100, service / 0x100, client])
  }

  function DecodeServiceClient(v: Octets): Option<(U16, Byte)> {
    if |v| == 2 then Some((v[0], v[1]))
    else if |v| == 3 then Some((FromLe16(v[0], v[1]), v[2]))
    else None
  }

  function EncodeService(service: U16): Tlv {
    if service <= 0xFF then Tlv(0x01, [service]) else Tlv(0x01, [service % 0x100, service / 0x100])
  }

  function DecodeService(v: Octets): Option<U16> {
    if |v| == 1 then Some(v[0])
    else if |v| == 2 then Some(FromLe16(v[0], v[1]))
    else None
  }

  function FindTlv(ts: seq<Tlv>, kind: Byte): Option<Tlv> {
    if ts == [] then None else if ts[0].kind == kind then Some(ts[0]) else FindTlv(ts[1..], kind)
  }

  function SuccessTlv(): Tlv {
    Tlv(0x02, [0, 0, 0, 0])
  }

  function ErrorTlv(code: U16): Tlv {
    Tlv(0x02, [0x01, 0x00, code % 0x100, code / 0x100])
  }

  /** `GetResultCode`: result and error code of a response. */
  function ResultOf(ts: seq<Tlv>): Option<(U16, U16)> {
    match FindTlv(ts, 0x02)
    case None => None
    case Some(t) =>
      if |t.value| < 4 then None else Some((FromLe16(t.value[0], t.value[1]), FromLe16(t.value[2], t.value[3])))
  }

  function ReplyHeader(txId: Byte, msgId: U16, tlvLen: nat): (r: Octets)
    ensures |r| == CTL_HEADER_SIZE
  {
    [0x01, txId] + Le16(msgId) + Le16(tlvLen)
  }

  /** `marshalCTLResponseFrame`: the response flag is set, the indication flag is not. */
  function ControlReply(txId: Byte, msgId: U16, tlvs: seq<Tlv>): Octets {
    var region := MarshalTlvs(tlvs);
    var body := ReplyHeader(txId, msgId, |region|) + region;
    MarshalFrameHeader(SERVICE_CONTROL, 0, |body|) + body
  }

  lemma ReplyHeaderOctets(txId: Byte, msgId: U16, tlvLen: U16)
    ensures
      var head := ReplyHeader(txId, msgId, tlvLen);
      && head[0] == 0x01 && head[1] == txId
      && FromLe16(head[2], head[3]) == msgId && FromLe16(head[4], head[5]) == tlvLen
  {
    hide Le16, FromLe16;
    FromLe16OfLe16(msgId);
    FromLe16OfLe16(tlvLen);
    var head, m, l := ReplyHeader(txId, msgId, tlvLen), Le16(msgId), Le16(tlvLen);
    assert head[2] == m[0] && head[3] == m[1] && head[4] == l[0] && head[5] == l[1];
  }

  lemma ReplyBodyDecodes(txId: Byte, msgId: U16, tlvLen: U16, region: Octets)
    ensures
      var body := ReplyHeader(txId, msgId, tlvLen) + region;
      UnmarshalInner(SERVICE_CONTROL, body) == (0x01, txId, msgId, tlvLen) && body[CTL_HEADER_SIZE..] == region
  {
    hide FromLe16, ReplyHeader;
    ReplyHeaderOctets(txId, msgId, tlvLen);
    var head := ReplyHeader(txId, msgId, tlvLen);
    var body := head + region;
    assert forall i :: 0 <= i < |head| ==> body[i] == head[i];
  }

  lemma ControlReplyDecodes(txId: Byte, msgId: U16, tlvs: seq<Tlv>)
    requires QMUX_HEADER_SIZE + CTL_HEADER_SIZE + |MarshalTlvs(tlvs)| <= 0x1_0000
    ensures UnmarshalPacket(ControlReply(txId, msgId, tlvs)) == Ok(Packet(SERVICE_CONTROL, 0, txId, msgId, false, tlvs))
  {
    hide MarshalFrameHeader, UnmarshalPacket, Parse, MarshalTlvs, ReplyHeader, UnmarshalInner;
    var region := MarshalTlvs(tlvs);
    EnvelopeDecodes(SERVICE_CONTROL, 0, ReplyHeader(txId, msgId, |region|) + region);
    ReplyBodyDecodes(txId, msgId, |region|, region);
    assert region[..|region|] == region;
    ShortEntriesEncodable(tlvs);
    assert region == region + Zeros(0);
    ParseComplete(region, tlvs, 0);
  }

  /** The frame is marked as a response, 0x01, after the six octets of its envelope, which flags nothing. */
  lemma ReplyIsMarked(txId: Byte, msgId: U16, tlvs: seq<Tlv>)
    ensures
      var frame := ControlReply(txId, msgId, tlvs);
      |frame| >= 12 && frame[0] == 0x01 && frame[3] == 0 && frame[6] == 0x01 && frame[7] == txId
  {
    hide Le16, MarshalTlvs;
    var region := MarshalTlvs(tlvs);
    var inner := ReplyHeader(txId, msgId, |region|);
    var body := inner + region;
    var head := MarshalFrameHeader(SERVICE_CONTROL, 0, |body|);
    assert ControlReply(txId, msgId, tlvs) == head + body;
    assert body[0] == inner[0] && body[1] == inner[1];
  }

  // ---------------------------------------------------------------- handling a request

  /** The service a client ID is asked for, if the request names one. */
  function Requested(ts: seq<Tlv>): Option<U16> {
    match FindTlv(ts, 0x01)
    case None => None
    case Some(t) => DecodeService(t.value)
  }

  function Released(ts: seq<Tlv>): Option<(U16, Byte)> {
    match FindTlv(ts, 0x01)
    case None => None
    case Some(t) => DecodeServiceClient(t.value)
  }

  datatype Refusal = BadRequest(error: FrameError) | UnsupportedMessage

  /**
   `handleCTLWrite`; `granted` is the client ID that a lookup and a new socket yield for the requested service, or
   None when the service is not there or the transport was closed meanwhile.
   */
  function Respond(body: Octets, granted: Option<Byte>): Result<Octets, Refusal> {
    match DecodeBody(SERVICE_CONTROL, 0, body)
    case Err(e) => Err(BadRequest(e))
    case Ok(p) =>
      var txId := body[1];
      if p.msgId == CTL_SYNC then Ok(ControlReply(txId, CTL_SYNC, [SuccessTlv()]))
      else if p.msgId == CTL_GET_CLIENT_ID then
        Ok(ControlReply(txId, CTL_GET_CLIENT_ID,
                        match Requested(p.tlvs)
                        case None => [ErrorTlv(ERR_MALFORMED_MSG)]
                        case Some(service) =>
                          if granted.None? then [ErrorTlv(ERR_DEVICE_NOT_READY)]
                          else [SuccessTlv(), EncodeServiceClient(service, granted.value)]))
      else if p.msgId == CTL_RELEASE_CLIENT_ID then
        Ok(ControlReply(txId, CTL_RELEASE_CLIENT_ID,
                        if Released(p.tlvs).None? then [ErrorTlv(ERR_MALFORMED_MSG)] else [SuccessTlv()]))
      else Err(UnsupportedMessage)
  }

  // ---------------------------------------------------------------- both ends of an exchange

  /** The services of both widths on the wire: one octet up to 0xFF, else two, low octet first. */
  lemma ServiceOnTheWire(service: U16, client: Byte)
    ensures
      var v := EncodeService(service).value;
      && (if service <= 0xFF then v == [service] else |v| == 2 && v[0] as int + 0x100 * v[1] as int == service)
      && EncodeServiceClient(service, client).value == v + [client]
      && EncodeService(service).kind == EncodeServiceClient(service, client).kind == 0x01
    ensures DecodeService(EncodeService(service).value) == Some(service)
    ensures DecodeServiceClient(EncodeServiceClient(service, client).value) == Some((service, client))
  {
  }

  lemma ShortTlvs(ts: seq<Tlv>)
    requires |ts| <= 2 && forall i :: 0 <= i < |ts| ==> |ts[i].value| <= 4
    ensures |MarshalTlvs(ts)| <= 14
  {
    hide MarshalTlv;
    if |ts| == 1 {
      assert ts[1..] == [];
    } else if |ts| == 2 {
      assert ts[1..] == [ts[1]] && [ts[1]][1..] == [];
      assert MarshalTlvs(ts) == MarshalTlv(ts[0]) + MarshalTlvs([ts[1]]);
    }
  }

  /** The result entries read back: success, with any entry behind it, and an error with its code. */
  lemma ResultTlvsRead(t: Tlv, code: U16)
    ensures ResultOf([SuccessTlv()]) == Some((0, 0))
    ensures ResultOf([ErrorTlv(code)]) == Some((1, code))
    ensures ResultOf([SuccessTlv(), t]) == Some((0, 0))
    ensures t.kind != 0x02 ==> FindTlv([SuccessTlv(), t], t.kind) == Some(t)
  {
    assert [SuccessTlv(), t][1..] == [t];
  }

  /** A control request of at most two short entries arrives at the simulation as it was sent. */
  lemma RequestArrives(txId: Byte, msgId: U16, ts: seq<Tlv>)
    requires |ts| <= 2 && forall i :: 0 <= i < |ts| ==> |ts[i].value| <= 4
    ensures
      var request := Packet(0, 0, txId, msgId, false, ts);
      RouteWrite(Marshal(request)) == Ok(ToControl(Body(request))) && DecodeBody(0, 0, Body(request)) == Ok(request)
  {
    hide MarshalFrameHeader, UnmarshalFrameHeader, MarshalTlvs, InnerHeader, DecodeBody;
    var request := Packet(0, 0, txId, msgId, false, ts);
    ShortTlvs(ts);
    FrameHeaderRoundTrip(0, 0, Body(request));
    assert Marshal(request)[OuterHeaderSize(0)..] == Body(request);
    DecodeMarshalledBody(request, 0);
  }

  /** The entries the client sends name what it wants. */
  lemma RequestsNameTheirService(service: U16, client: Byte)
    ensures Requested([EncodeService(service)]) == Some(service)
    ensures Released([EncodeServiceClient(service, client)]) == Some((service, client))
  {
  }

  lemma RequestTxId(body: Octets, p: Packet)
    requires DecodeBody(0, 0, body) == Ok(p)
    ensures |body| >= 6 && p.txId == body[1]
  {
    hide Parse;
  }

  lemma ReplyArrives(txId: Byte, msgId: U16, ts: seq<Tlv>)
    requires |ts| <= 2 && forall i :: 0 <= i < |ts| ==> |ts[i].value| <= 4
    ensures UnmarshalPacket(ControlReply(txId, msgId, ts)) == Ok(Packet(0, 0, txId, msgId, false, ts))
  {
    ShortTlvs(ts);
    hide MarshalTlvs, ControlReply, UnmarshalPacket;
    ControlReplyDecodes(txId, msgId, ts);
  }

  /** What the client reads back: a response to the request's transaction and message. */
  predicate AnswersTo(request: Packet, reply: Packet) {
    reply.service == 0 && reply.txId == request.txId && reply.msgId == request.msgId && !reply.indication
  }

  /**
   An allocation request, however it was spelled, is answered under its transaction: with success, the
   requested service and the new client ID, or with the error "device not ready".
   */
  lemma AllocationAnswered(body: Octets, request: Packet, service: U16, granted: Option<Byte>) returns (reply: Packet)
    requires DecodeBody(0, 0, body) == Ok(request) && request.msgId == 0x0022 && Requested(request.tlvs) == Some(service)
    ensures Respond(body, granted).Ok? && UnmarshalPacket(Respond(body, granted).value) == Ok(reply) && AnswersTo(request, reply)
    ensures granted.None? ==> ResultOf(reply.tlvs) == Some((1, 5))
    ensures granted.Some? ==>
              && ResultOf(reply.tlvs) == Some((0, 0)) && FindTlv(reply.tlvs, 0x01).Some?
              && DecodeServiceClient(FindTlv(reply.tlvs, 0x01).value.value) == Some((service, granted.value))
  {
    hide UnmarshalPacket, ControlReply, DecodeBody;
    RequestTxId(body, request);
    var ts := [ErrorTlv(5)];
    if granted.Some? {
      ts := [SuccessTlv(), EncodeServiceClient(service, granted.value)];
    }
    ResultTlvsRead(EncodeServiceClient(service, if granted.Some? then granted.value else 0), 5);
    ReplyArrives(body[1], 0x0022, ts);
    reply := Packet(0, 0, body[1], 0x0022, false, ts);
  }

  /** A release that names a service and a client, and a sync request, are answered with success. */
  lemma ReleaseAndSyncAnswered(body: Octets, request: Packet, granted: Option<Byte>) returns (reply: Packet)
    requires DecodeBody(0, 0, body) == Ok(request)
    requires (request.msgId == 0x0023 && Released(request.tlvs).Some?) || request.msgId == 0x0027
    ensures Respond(body, granted).Ok? && UnmarshalPacket(Respond(body, granted).value) == Ok(reply) && AnswersTo(request, reply)
    ensures ResultOf(reply.tlvs) == Some((0, 0))
  {
    hide UnmarshalPacket, ControlReply, DecodeBody;
    RequestTxId(body, request);
    ResultTlvsRead(SuccessTlv(), 5);
    ReplyArrives(body[1], request.msgId, [SuccessTlv()]);
    reply := Packet(0, 0, body[1], request.msgId, false, [SuccessTlv()]);
  }

  /** A request that names no service, or none of a known width, is answered with the error "malformed message". */
  lemma MalformedRequestRefused(body: Octets, request: Packet, granted: Option<Byte>) returns (reply: Packet)
    requires DecodeBody(0, 0, body) == Ok(request)
    requires
      || (request.msgId == 0x0022 && (FindTlv(request.tlvs, 0x01).None? || |FindTlv(request.tlvs, 0x01).value.value| !in {1, 2}))
      || (request.msgId == 0x0023 && (FindTlv(request.tlvs, 0x01).None? || |FindTlv(request.tlvs, 0x01).value.value| !in {2, 3}))
    ensures Respond(body, granted).Ok? && UnmarshalPacket(Respond(body, granted).value) == Ok(reply) && AnswersTo(request, reply)
    ensures ResultOf(reply.tlvs) == Some((1, 1))
  {
    hide UnmarshalPacket, ControlReply, DecodeBody;
    RequestTxId(body, request);
    ResultTlvsRead(SuccessTlv(), 1);
    ReplyArrives(body[1], request.msgId, [ErrorTlv(1)]);
    reply := Packet(0, 0, body[1], request.msgId, false, [ErrorTlv(1)]);
  }
}
