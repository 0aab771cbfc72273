/**
 The QMI wire format of pkg/qmi/frame.go: two outer envelopes (6-byte QMUX, 7-byte QRTR virtual),
 two inner headers (control, service) and a list of type-length-value entries.
 Every 16-bit length field is written through a truncating conversion, as in the source.
 */
module Frame {
  import opened Bytes

  const QMUX_HEADER_SIZE := 6
  const QRTR_HEADER_SIZE := 7
  const CTL_HEADER_SIZE := 6
  const SERVICE_HEADER_SIZE := 7
  const TLV_HEADER_SIZE := 3
  const SERVICE_CONTROL := 0

  datatype Tlv = Tlv(kind: Byte, value: Octets)

  datatype Packet = Packet(
    service: U16,
    client: Byte,
    txId: U16,
    msgId: U16,
    indication: bool,
    tlvs: seq<Tlv>)

  datatype FrameError =
    | ShortHeader
    | BadMarker
    | BadLength
    | Truncated
    | ShortBody
    | TlvsTruncated
    | BadTlvs

  // ---------------------------------------------------------------- type-length-value entries

  function MarshalTlv(t: Tlv): (r: Octets)
    ensures |r| == TLV_HEADER_SIZE + |t.value|
  {
    [t.kind] + Le16(|t.value|) + t.value
  }

  function MarshalTlvs(ts: seq<Tlv>): Octets {
    if ts == [] then [] else MarshalTlv(ts[0]) + MarshalTlvs(ts[1..])
  }

  /** Each value is short enough for its 16-bit length field. */
  ghost predicate Encodable(ts: seq<Tlv>) {
    forall i :: 0 <= i < |ts| ==> |ts[i].value| < 0x1_0000
  }

  /** Length of the entry at the front of `d`, or None when the entry is incomplete. */
  function EntryLength(d: Octets): (r: Option<nat>)
    ensures r.Some? ==> TLV_HEADER_SIZE <= r.value <= |d|
  {
    if |d| < TLV_HEADER_SIZE then None
    else
      var n := TLV_HEADER_SIZE + FromLe16(d[1], d[2]);
      if |d| < n then None else Some(n)
  }

  function UnmarshalTlv(d: Octets): Option<(Tlv, nat)> {
    match EntryLength(d)
    case None => None
    case Some(n) => Some((Tlv(d[0], d[TLV_HEADER_SIZE..n]), n))
  }

  /** A malformed region still reports the entries decoded before the fault. */
  datatype TlvParse = Parsed(tlvs: seq<Tlv>) | Malformed(tlvs: seq<Tlv>) {
    function Prepend(ts: seq<Tlv>): TlvParse {
      this.(tlvs := ts + tlvs)
    }
  }

  predicate IsPadding(d: Octets) {
    |d| < TLV_HEADER_SIZE && forall i :: 0 <= i < |d| ==> d[i] == 0
  }

  function Parse(d: Octets): TlvParse {
    if IsPadding(d) then Parsed([])
    else
      match UnmarshalTlv(d)
      case None => Malformed([])
      case Some((t, n)) => Parse(d[n..]).Prepend([t])
  }

  /** `ParseTLVs`: the offset loop with its zero-padding scan. */
  method ParseTlvs(d: Octets) returns (r: TlvParse)
    ensures r == Parse(d)
  {
    var tlvs: seq<Tlv> := [];
    var offset := 0;
    while offset < |d|
      invariant 0 <= offset <= |d|
      invariant Parse(d) == Parse(d[offset..]).Prepend(tlvs)
    {
      var rest := d[offset..];
      if |d| - offset < TLV_HEADER_SIZE {
        var allZero := true;
        for i := offset to |d|
          invariant allZero
          invariant forall j :: offset <= j < i ==> d[j] == 0
        {
          if d[i] != 0 {
            allZero := false;
            assert rest[i - offset] != 0;
            break;
          }
        }
        if allZero {
          assert IsPadding(rest);
          return Parsed(tlvs);
        }
      }
      match UnmarshalTlv(rest) {
        case None =>
          return Malformed(tlvs);
        case Some((t, consumed)) =>
          ParseStep(rest, t, consumed, tlvs);
          tlvs := tlvs + [t];
          offset := offset + consumed;
          assert d[offset..] == rest[consumed..];
      }
    }
    assert IsPadding(d[offset..]);
    return Parsed(tlvs);
  }

  lemma ParseStep(d: Octets, t: Tlv, n: nat, before: seq<Tlv>)
    requires !IsPadding(d) && UnmarshalTlv(d) == Some((t, n))
    ensures Parse(d).Prepend(before) == Parse(d[n..]).Prepend(before + [t])
  {
    hide EntryLength;
    assert before + ([t] + Parse(d[n..]).tlvs) == before + [t] + Parse(d[n..]).tlvs;
  }

  /** `d` is a serialised entry list followed by `pad` zero octets, too few to start an entry. */
  ghost predicate IsTlvRegion(d: Octets, ts: seq<Tlv>, pad: nat) {
    && pad < TLV_HEADER_SIZE
    && Encodable(ts)
    && d == MarshalTlvs(ts) + Zeros(pad)
  }

  /** Re-encoding a decoded entry gives back the octets it was read from. */
  lemma EntryRoundTrip(d: Octets)
    requires EntryLength(d).Some?
    ensures
      var (t, n) := UnmarshalTlv(d).value;
      && n == |MarshalTlv(t)|
      && |t.value| < 0x1_0000
      && d[..n] == MarshalTlv(t)
  {
    hide Le16;
    var (t, n) := UnmarshalTlv(d).value;
    Le16OfFromLe16(d[1], d[2]);
    assert MarshalTlv(t) == [d[0]] + [d[1], d[2]] + d[TLV_HEADER_SIZE..n];
  }

  lemma MarshalTlvsCons(t: Tlv, ts: seq<Tlv>)
    ensures MarshalTlvs([t] + ts) == MarshalTlv(t) + MarshalTlvs(ts)
  {
    hide MarshalTlv;
    assert ([t] + ts)[1..] == ts;
  }

  /** The grammar accepts what the parser accepts. */
  lemma {:induction false} ParseSound(d: Octets) returns (pad: nat)
    requires Parse(d).Parsed?
    ensures IsTlvRegion(d, Parse(d).tlvs, pad)
    decreases |d|
  {
    hide Le16, MarshalTlv, IsTlvRegion;
    if IsPadding(d) {
      pad := |d|;
      EmptyRegion(d);
    } else {
      var (t, n) := UnmarshalTlv(d).value;
      pad := ParseSound(d[n..]);
      EntryRoundTrip(d);
      ConsRegion(t, d[n..], Parse(d[n..]).tlvs, pad);
      assert d == d[..n] + d[n..];
    }
  }

  lemma EmptyRegion(d: Octets)
    requires IsPadding(d)
    ensures IsTlvRegion(d, [], |d|)
  {
    assert d == MarshalTlvs([]) + Zeros(|d|);
  }

  lemma ConsRegion(t: Tlv, d: Octets, ts: seq<Tlv>, pad: nat)
    requires IsTlvRegion(d, ts, pad) && |t.value| < 0x1_0000
    ensures IsTlvRegion(MarshalTlv(t) + d, [t] + ts, pad)
  {
    hide MarshalTlv;
    MarshalTlvsCons(t, ts);
    assert MarshalTlv(t) + (MarshalTlvs(ts) + Zeros(pad)) == MarshalTlv(t) + MarshalTlvs(ts) + Zeros(pad);
  }

  /** The parser returns the entry list of every string of the grammar. */
  lemma {:induction false} ParseComplete(d: Octets, ts: seq<Tlv>, pad: nat)
    requires IsTlvRegion(d, ts, pad)
    ensures Parse(d) == Parsed(ts)
    decreases |ts|
  {
    if ts == [] {
      assert IsPadding(d);
    } else {
      var head, rest := MarshalTlv(ts[0]), MarshalTlvs(ts[1..]) + Zeros(pad);
      assert d == head + rest;
      assert UnmarshalTlv(d) == Some((ts[0], |head|)) by {
        assert d[1] == Le16(|ts[0].value|)[0] && d[2] == Le16(|ts[0].value|)[1];
        assert d[TLV_HEADER_SIZE..|head|] == ts[0].value;
      }
      assert d[|head|..] == rest;
      ParseComplete(rest, ts[1..], pad);
      assert [ts[0]] + ts[1..] == ts;
    }
  }

  /** The parser decides exactly the region grammar, and the list it returns is the only one. */
  lemma TlvLanguage(d: Octets, ts: seq<Tlv>)
    ensures Parse(d) == Parsed(ts) <==> exists pad: nat :: IsTlvRegion(d, ts, pad)
  {
    hide Parse, IsTlvRegion;
    if Parse(d) == Parsed(ts) {
      var pad := ParseSound(d);
    }
    forall pad: nat | IsTlvRegion(d, ts, pad)
      ensures Parse(d) == Parsed(ts)
    {
      ParseComplete(d, ts, pad);
    }
  }

  lemma TlvRegionUnique(d: Octets, ts: seq<Tlv>, pad: nat, us: seq<Tlv>, qad: nat)
    requires IsTlvRegion(d, ts, pad) && IsTlvRegion(d, us, qad)
    ensures ts == us && pad == qad
  {
    ParseComplete(d, ts, pad);
    ParseComplete(d, us, qad);
  }

  /** A malformed region reports the entries before the break: what follows them is neither padding nor an entry. */
  lemma {:induction false} MalformedPrefix(d: Octets) returns (tail: Octets)
    requires Parse(d).Malformed?
    ensures d == MarshalTlvs(Parse(d).tlvs) + tail
    ensures !IsPadding(tail) && EntryLength(tail).None?
    decreases |d|
  {
    hide Le16, MarshalTlv, EntryLength;
    if EntryLength(d).Some? {
      var (t, n) := UnmarshalTlv(d).value;
      tail := MalformedPrefix(d[n..]);
      EntryRoundTrip(d);
      MarshalTlvsCons(t, Parse(d[n..]).tlvs);
      assert d == d[..n] + d[n..];
    } else {
      tail := d;
    }
  }

  // ---------------------------------------------------------------- outer envelopes

  function OuterHeaderSize(service: U16): nat {
    if service <= 0xFF then QMUX_HEADER_SIZE else QRTR_HEADER_SIZE
  }

  /** `marshalFrameHeader`: the narrow QMUX envelope whenever the service fits in one octet. */
  function MarshalFrameHeader(service: U16, client: Byte, bodyLen: nat): (r: Octets)
    ensures |r| == OuterHeaderSize(service)
  {
    if service <= 0xFF then
      [0x01] + Le16(bodyLen + 5) + [0x00, service, client]
    else
      [0x02] + Le16(bodyLen + 6) + [0x00] + Le16(service) + [client]
  }

  datatype FrameHeader = FrameHeader(headerSize: nat, length: U16, flags: Byte, service: U16, client: Byte)

  function UnmarshalFrameHeader(d: Octets): (r: Result<FrameHeader, FrameError>)
    ensures r.Ok? ==> QMUX_HEADER_SIZE <= r.value.headerSize <= |d|
    ensures r.Ok? ==> OuterHeaderSize(r.value.service) <= r.value.headerSize
  {
    if |d| < 1 then Err(ShortHeader)
    else if d[0] == 0x01 then
      if |d| < QMUX_HEADER_SIZE then Err(ShortHeader)
      else Ok(FrameHeader(QMUX_HEADER_SIZE, FromLe16(d[1], d[2]), d[3], d[4], d[5]))
    else if d[0] == 0x02 then
      if |d| < QRTR_HEADER_SIZE then Err(ShortHeader)
      else Ok(FrameHeader(QRTR_HEADER_SIZE, FromLe16(d[1], d[2]), d[3], FromLe16(d[4], d[5]), d[6]))
    else Err(BadMarker)
  }

  /** The header announces the octets that follow it, and names the service and client it was built for. */
  lemma FrameHeaderRoundTrip(service: U16, client: Byte, body: Octets)
    ensures
      var r := UnmarshalFrameHeader(MarshalFrameHeader(service, client, |body|) + body);
      && r.Ok?
      && r.value.headerSize == OuterHeaderSize(service)
      && r.value.length == (OuterHeaderSize(service) - 1 + |body|) % 0x1_0000
      && r.value.service == service
      && r.value.client == client
  {
    hide Le16, MarshalFrameHeader;
    var head := MarshalFrameHeader(service, client, |body|);
    var d := head + body;
    assert forall i :: 0 <= i < |head| ==> d[i] == head[i];
    if service <= 0xFF {
      QmuxHeaderOctets(service, client, |body|);
    } else {
      QrtrHeaderOctets(service, client, |body|);
    }
  }

  lemma QmuxHeaderOctets(service: U16, client: Byte, bodyLen: nat)
    requires service <= 0xFF
    ensures
      var head := MarshalFrameHeader(service, client, bodyLen);
      head[0] == 0x01 && FromLe16(head[1], head[2]) == (bodyLen + 5) % 0x1_0000 && head[4] == service && head[5] == client
  {
    hide Le16;
    FromLe16OfLe16(bodyLen + 5);
    var head, len := MarshalFrameHeader(service, client, bodyLen), Le16(bodyLen + 5);
    assert head[1] == len[0] && head[2] == len[1];
  }

  lemma QrtrHeaderOctets(service: U16, client: Byte, bodyLen: nat)
    requires service > 0xFF
    ensures
      var head := MarshalFrameHeader(service, client, bodyLen);
      && head[0] == 0x02 && FromLe16(head[1], head[2]) == (bodyLen + 6) % 0x1_0000
      && FromLe16(head[4], head[5]) == service && head[6] == client
  {
    hide Le16;
    FromLe16OfLe16(bodyLen + 6);
    FromLe16OfLe16(service);
    var head, len, id := MarshalFrameHeader(service, client, bodyLen), Le16(bodyLen + 6), Le16(service);
    assert head[1] == len[0] && head[2] == len[1] && head[4] == id[0] && head[5] == id[1];
  }

  // ---------------------------------------------------------------- packets

  function InnerHeaderSize(service: U16): nat {
    if service == SERVICE_CONTROL then CTL_HEADER_SIZE else SERVICE_HEADER_SIZE
  }

  /** Control requests carry one octet of transaction ID, service requests two; both clear the flags. */
  function InnerHeader(p: Packet, tlvLen: nat): (r: Octets)
    ensures |r| == InnerHeaderSize(p.service)
  {
    if p.service == SERVICE_CONTROL then
      [0x00, p.txId % 0x100] + Le16(p.msgId) + Le16(tlvLen)
    else
      [0x00] + Le16(p.txId) + Le16(p.msgId) + Le16(tlvLen)
  }

  function Body(p: Packet): Octets {
    var tlvs := MarshalTlvs(p.tlvs);
    InnerHeader(p, |tlvs|) + tlvs
  }

  function Marshal(p: Packet): Octets {
    MarshalFrameHeader(p.service, p.client, |Body(p)|) + Body(p)
  }

  lemma {:induction false} MarshalTlvsSnoc(ts: seq<Tlv>, t: Tlv)
    ensures MarshalTlvs(ts + [t]) == MarshalTlvs(ts) + MarshalTlv(t)
  {
    hide MarshalTlv;
    if ts == [] {
      assert ts + [t] == [t] && [t][1..] == [];
    } else {
      MarshalTlvsSnoc(ts[1..], t);
      assert (ts + [t])[1..] == ts[1..] + [t];
    }
  }

  /** `Packet.Marshal`: entries are appended one by one, then the two headers are put in front. */
  method MarshalPacket(p: Packet) returns (out: Octets)
    ensures out == Marshal(p)
  {
    hide MarshalTlv, Le16;
    var tlvBytes: Octets := [];
    for i := 0 to |p.tlvs|
      invariant tlvBytes == MarshalTlvs(p.tlvs[..i])
    {
      MarshalTlvsSnoc(p.tlvs[..i], p.tlvs[i]);
      assert p.tlvs[..i + 1] == p.tlvs[..i] + [p.tlvs[i]];
      tlvBytes := tlvBytes + MarshalTlv(p.tlvs[i]);
    }
    assert p.tlvs[..|p.tlvs|] == p.tlvs;
    var body := InnerHeader(p, |tlvBytes|) + tlvBytes;
    out := MarshalFrameHeader(p.service, p.client, |body|) + body;
  }

  /** Inner headers: (flags, transaction ID, message ID, declared entry length). */
  function UnmarshalInner(service: U16, body: Octets): (Byte, U16, U16, U16)
    requires |body| >= InnerHeaderSize(service)
  {
    if service == SERVICE_CONTROL then
      (body[0], body[1], FromLe16(body[2], body[3]), FromLe16(body[4], body[5]))
    else
      (body[0], FromLe16(body[1], body[2]), FromLe16(body[3], body[4]), FromLe16(body[5], body[6]))
  }

  /** Bit 0x02 marks an indication on the control service, bit 0x04 on every other one. */
  predicate IsIndication(service: U16, flags: Byte) {
    if service == SERVICE_CONTROL then (flags / 2) % 2 == 1 else (flags / 4) % 2 == 1
  }

  function DecodeBody(service: U16, client: Byte, body: Octets): Result<Packet, FrameError> {
    var inner := InnerHeaderSize(service);
    if |body| < inner then Err(ShortBody)
    else
      var (flags, txId, msgId, tlvLen) := UnmarshalInner(service, body);
      var tlvData := body[inner..];
      if tlvLen > |tlvData| then Err(TlvsTruncated)
      else
        match Parse(tlvData[..tlvLen])
        case Malformed(_) => Err(BadTlvs)
        case Parsed(tlvs) =>
          Ok(Packet(service, client, txId, msgId, IsIndication(service, flags), tlvs))
  }

  function UnmarshalPacket(d: Octets): Result<Packet, FrameError> {
    match UnmarshalFrameHeader(d)
    case Err(e) => Err(e)
    case Ok(h) =>
      var total := h.length + 1;
      if total < h.headerSize then Err(BadLength)
      else if |d| < total then Err(Truncated)
      else DecodeBody(h.service, h.client, d[h.headerSize..total])
  }

  /** The packet's encoding fits the 16-bit outer length field. */
  predicate Fits(p: Packet) {
    OuterHeaderSize(p.service) + InnerHeaderSize(p.service) + |MarshalTlvs(p.tlvs)| <= 0x1_0000
  }

  /** What the wire keeps of a request: no indication flag, eight bits of a control transaction ID. */
  function Normalize(p: Packet): Packet {
    p.(indication := false, txId := if p.service == SERVICE_CONTROL then p.txId % 0x100 else p.txId)
  }

  lemma {:induction false} ShortEntriesEncodable(ts: seq<Tlv>)
    requires |MarshalTlvs(ts)| < 0x1_0000
    ensures Encodable(ts)
  {
    hide MarshalTlv;
    if ts == [] {
    } else {
      ShortEntriesEncodable(ts[1..]);
      forall i | 0 <= i < |ts| ensures |ts[i].value| < 0x1_0000 {
        if i > 0 {
          assert ts[i] == ts[1..][i - 1];
        }
      }
    }
  }

  lemma DecodeMarshalledBody(p: Packet, client: Byte)
    requires Fits(p)
    ensures DecodeBody(p.service, client, Body(p)) == Ok(Normalize(p).(client := client))
  {
    hide InnerHeader, UnmarshalInner, Parse, MarshalTlvs;
    var tlvs := MarshalTlvs(p.tlvs);
    var head := InnerHeader(p, |tlvs|);
    var body := head + tlvs;
    assert body[|head|..] == tlvs && tlvs[..|tlvs|] == tlvs;
    assert forall i :: 0 <= i < |head| ==> body[i] == head[i];
    InnerHeaderRoundTrip(p, |tlvs|, body);
    ShortEntriesEncodable(p.tlvs);
    assert tlvs == tlvs + Zeros(0);
    ParseComplete(tlvs, p.tlvs, 0);
  }

  lemma ControlHeaderOctets(p: Packet, tlvLen: nat)
    requires p.service == SERVICE_CONTROL
    ensures
      var head := InnerHeader(p, tlvLen);
      && head[0] == 0 && head[1] == p.txId % 0x100
      && FromLe16(head[2], head[3]) == p.msgId && FromLe16(head[4], head[5]) == tlvLen % 0x1_0000
  {
    hide Le16;
    FromLe16OfLe16(p.msgId);
    FromLe16OfLe16(tlvLen);
    var head, m, l := InnerHeader(p, tlvLen), Le16(p.msgId), Le16(tlvLen);
    assert head[2] == m[0] && head[3] == m[1] && head[4] == l[0] && head[5] == l[1];
  }

  lemma ServiceHeaderOctets(p: Packet, tlvLen: nat)
    requires p.service != SERVICE_CONTROL
    ensures
      var head := InnerHeader(p, tlvLen);
      && head[0] == 0 && FromLe16(head[1], head[2]) == p.txId
      && FromLe16(head[3], head[4]) == p.msgId && FromLe16(head[5], head[6]) == tlvLen % 0x1_0000
  {
    hide Le16;
    FromLe16OfLe16(p.txId);
    FromLe16OfLe16(p.msgId);
    FromLe16OfLe16(tlvLen);
    var head, x, m, l := InnerHeader(p, tlvLen), Le16(p.txId), Le16(p.msgId), Le16(tlvLen);
    assert head[1] == x[0] && head[2] == x[1];
    assert head[3] == m[0] && head[4] == m[1] && head[5] == l[0] && head[6] == l[1];
  }

  lemma InnerHeaderRoundTrip(p: Packet, tlvLen: nat, body: Octets)
    requires tlvLen < 0x1_0000
    requires InnerHeader(p, tlvLen) <= body
    ensures UnmarshalInner(p.service, body) == (0, Normalize(p).txId, p.msgId, tlvLen)
  {
    hide Le16, FromLe16, InnerHeader;
    var head := InnerHeader(p, tlvLen);
    assert forall i :: 0 <= i < |head| ==> body[i] == head[i];
    if p.service == SERVICE_CONTROL {
      ControlHeaderOctets(p, tlvLen);
    } else {
      ServiceHeaderOctets(p, tlvLen);
    }
  }

  /** Whatever decodes is small enough to be sent again. */
  lemma DecodedPacketFits(d: Octets)
    requires UnmarshalPacket(d).Ok?
    ensures Fits(UnmarshalPacket(d).value)
  {
    hide Parse, MarshalTlvs, UnmarshalFrameHeader, UnmarshalInner;
    var h := UnmarshalFrameHeader(d).value;
    var body := d[h.headerSize..h.length + 1];
    var (_, _, _, tlvLen) := UnmarshalInner(h.service, body);
    var region := body[InnerHeaderSize(h.service)..][..tlvLen];
    var pad := ParseSound(region);
  }

  /** A frame of exactly the announced size decodes to whatever its body decodes to. */
  lemma ExactFrameDecodes(d: Octets, h: FrameHeader, head: Octets, body: Octets)
    requires UnmarshalFrameHeader(d) == Ok(h)
    requires d == head + body && |head| == h.headerSize && |d| == h.length + 1
    ensures UnmarshalPacket(d) == DecodeBody(h.service, h.client, body)
  {
    hide DecodeBody, UnmarshalFrameHeader;
    assert d[h.headerSize..|d|] == body;
  }

  /** An envelope within the length limit is transparent: decoding sees the body it was put around. */
  lemma EnvelopeDecodes(service: U16, client: Byte, body: Octets)
    requires OuterHeaderSize(service) + |body| <= 0x1_0000
    ensures UnmarshalPacket(MarshalFrameHeader(service, client, |body|) + body) == DecodeBody(service, client, body)
  {
    hide DecodeBody, UnmarshalFrameHeader, UnmarshalPacket, MarshalFrameHeader;
    var head := MarshalFrameHeader(service, client, |body|);
    FrameHeaderRoundTrip(service, client, body);
    ExactFrameDecodes(head + body, UnmarshalFrameHeader(head + body).value, head, body);
  }

  /** A marshalled packet comes back exactly when it fits; oversize packets never do. */
  lemma RoundTripIffFits(p: Packet)
    ensures UnmarshalPacket(Marshal(p)) == Ok(Normalize(p)) <==> Fits(p)
  {
    hide DecodeBody, UnmarshalPacket, MarshalFrameHeader, MarshalTlvs, InnerHeader;
    if Fits(p) {
      EnvelopeDecodes(p.service, p.client, Body(p));
      DecodeMarshalledBody(p, p.client);
    } else if UnmarshalPacket(Marshal(p)) == Ok(Normalize(p)) {
      DecodedPacketFits(Marshal(p));
    }
  }

  /** Decoding is stable: a decoded packet without the indication flag survives another trip unchanged. */
  lemma DecodeIsStable(d: Octets)
    requires UnmarshalPacket(d).Ok?
    ensures
      var p := UnmarshalPacket(d).value;
      UnmarshalPacket(Marshal(p)) == Ok(p.(indication := false))
  {
    hide UnmarshalPacket, Marshal, Fits;
    DecodedTxId(d);
    DecodedPacketFits(d);
    RoundTripIffFits(UnmarshalPacket(d).value);
  }

  lemma DecodedTxId(d: Octets)
    requires UnmarshalPacket(d).Ok?
    ensures
      var p := UnmarshalPacket(d).value;
      p.service == SERVICE_CONTROL ==> p.txId <= 0xFF
  {
    hide Parse, UnmarshalFrameHeader;
  }
}
