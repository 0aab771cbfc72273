/**
 The framing half of pkg/qmi/qrtr_transport_linux.go. QRTR carries bare QMI bodies, so `Write` strips
 the outer header and the per-service reader puts one back; control messages are answered locally.
 */
module Envelope {
  import opened Bytes
  import opened Frame
  import opened Deframer

  const MAX_FRAME_SIZE := 16384

  datatype Route = ToControl(body: Octets) | ToSocket(service: U16, client: Byte, body: Octets)

  /** `Write`: dispatch on the envelope and hand the bare body on. */
  function RouteWrite(frame: Octets): Result<Route, FrameError> {
    match UnmarshalFrameHeader(frame)
    case Err(e) => Err(e)
    case Ok(h) =>
      var body := frame[h.headerSize..];
      if h.service == SERVICE_CONTROL then Ok(ToControl(body)) else Ok(ToSocket(h.service, h.client, body))
  }

  function RebuildFrame(service: U16, client: Byte, sdu: Octets): Octets {
    MarshalFrameHeader(service, client, |sdu|) + sdu
  }

  /** `Read`: a frame larger than the caller's buffer is an error the read loop treats as fatal. */
  function ReadFrame(frame: Octets, bufferSize: nat): Option<Octets> {
    if |frame| > bufferSize then None else Some(frame)
  }

  /** Stripping a marshalled packet and re-enveloping its body gives the same octets, whatever its size. */
  lemma RebuildRestoresMarshalled(p: Packet)
    requires p.service != SERVICE_CONTROL
    ensures RouteWrite(Marshal(p)) == Ok(ToSocket(p.service, p.client, Body(p)))
    ensures RebuildFrame(p.service, p.client, Body(p)) == Marshal(p)
  {
    hide UnmarshalFrameHeader, MarshalFrameHeader, InnerHeader, MarshalTlvs;
    FrameHeaderRoundTrip(p.service, p.client, Body(p));
    assert Marshal(p)[OuterHeaderSize(p.service)..] == Body(p);
  }

  /** Octets after the declared entries do not matter: a body that decodes still does with more behind it. */
  lemma BodyTrailerIgnored(service: U16, client: Byte, body: Octets, trailer: Octets)
    requires DecodeBody(service, client, body).Ok?
    ensures DecodeBody(service, client, body + trailer) == DecodeBody(service, client, body)
  {
    hide Parse, FromLe16;
    var inner, long := InnerHeaderSize(service), body + trailer;
    assert UnmarshalInner(service, long) == UnmarshalInner(service, body);
    var (_, _, _, tlvLen) := UnmarshalInner(service, body);
    assert long[inner..][..tlvLen] == body[inner..][..tlvLen];
  }

  /** A frame that decodes holds the body it announces, and maybe more octets behind it. */
  lemma DecodingFrameBody(frame: Octets, h: FrameHeader)
    requires UnmarshalFrameHeader(frame) == Ok(h) && UnmarshalPacket(frame).Ok?
    ensures h.headerSize <= h.length + 1 <= |frame|
    ensures UnmarshalPacket(frame) == DecodeBody(h.service, h.client, frame[h.headerSize..h.length + 1])
  {
    hide UnmarshalFrameHeader, DecodeBody;
  }

  /**
   Whatever data frame is written, in either envelope and of whatever size, its body goes to the socket
   whole. Re-enveloped under the same client within the length limit, it decodes to what the body means:
   to the same packet if the frame decoded, octets behind its announced length notwithstanding, and with
   the same error too if the frame was exactly as long as announced.
   */
  lemma EnvelopeTransparency(frame: Octets, h: FrameHeader)
    requires UnmarshalFrameHeader(frame) == Ok(h) && h.service != SERVICE_CONTROL
    ensures
      var body := frame[h.headerSize..];
      var rebuilt := RebuildFrame(h.service, h.client, body);
      && RouteWrite(frame) == Ok(ToSocket(h.service, h.client, body))
      && (OuterHeaderSize(h.service) + |body| <= 0x1_0000 ==>
            && UnmarshalPacket(rebuilt) == DecodeBody(h.service, h.client, body)
            && (UnmarshalPacket(frame).Ok? ==> UnmarshalPacket(rebuilt) == UnmarshalPacket(frame)))
      && (|frame| == h.length + 1 ==> UnmarshalPacket(rebuilt) == UnmarshalPacket(frame))
  {
    hide UnmarshalFrameHeader, MarshalFrameHeader, UnmarshalPacket, DecodeBody;
    var body := frame[h.headerSize..];
    assert frame == frame[..h.headerSize] + body;
    if OuterHeaderSize(h.service) + |body| <= 0x1_0000 {
      EnvelopeDecodes(h.service, h.client, body);
      if UnmarshalPacket(frame).Ok? {
        DecodingFrameBody(frame, h);
        var announced, trailer := frame[h.headerSize..h.length + 1], frame[h.length + 1..];
        assert body == announced + trailer;
        BodyTrailerIgnored(h.service, h.client, announced, trailer);
      }
    }
    if |frame| == h.length + 1 {
      ExactFrameDecodes(frame, h, frame[..h.headerSize], body);
    }
  }

  /**
   Every datagram that fits the reader's buffer becomes one frame that `Read` accepts into the read
   loop's buffer and that the deframer takes out whole, leaving nothing behind.
   */
  lemma RebuiltFrameIsReadable(service: U16, client: Byte, sdu: Octets)
    requires |sdu| <= MAX_FRAME_SIZE - QRTR_HEADER_SIZE
    ensures
      var frame := RebuildFrame(service, client, sdu);
      && ReadFrame(frame, MAX_FRAME_SIZE) == Some(frame)
      && Scan(frame) == Scanned([frame], [])
      && UnmarshalPacket(frame) == DecodeBody(service, client, sdu)
  {
    hide MarshalFrameHeader, UnmarshalPacket, DecodeBody, Scan, IsFrame;
    var frame := RebuildFrame(service, client, sdu);
    EnvelopeIsFrame(service, client, sdu);
    EnvelopeDecodes(service, client, sdu);
    ScanFrame(frame, []);
    assert frame + [] == frame;
    ScanShort([]);
  }

  /** Control frames never reach a socket: their body goes to the local simulation, again whole. */
  lemma ControlStaysLocal(frame: Octets, h: FrameHeader)
    requires UnmarshalFrameHeader(frame) == Ok(h)
    ensures RouteWrite(frame) == Ok(ToControl(frame[h.headerSize..])) <==> h.service == 0
    ensures RouteWrite(frame).Ok? && RouteWrite(frame).value.body == frame[h.headerSize..]
  {
  }

  /** The headroom the reader keeps is needed: `Read` takes a rebuilt frame exactly when the datagram leaves room for its header. */
  lemma HeadroomIsNeeded(service: U16, client: Byte, sdu: Octets)
    ensures ReadFrame(RebuildFrame(service, client, sdu), MAX_FRAME_SIZE).Some? <==>
            |sdu| + (if service <= 0xFF then 6 else 7) <= 16384
  {
    hide MarshalFrameHeader;
  }
}
