/**
 The QMI wire format octet by octet, as pkg/qmi/frame.go lays it out: what it means for a string of octets
 to spell a packet, written on positions and without the codec's own functions, and the proof that the
 codec reads and writes exactly that.
 */
module WireFormat {
  import opened Bytes
  import opened Frame

  /** A little-endian 16-bit field. */
  function At16(d: Octets, i: nat): nat
    requires i + 2 <= |d|
  {
    d[i] as int + 0x100 * d[i + 1] as int
  }

  /** An entry at the front: type, 16-bit length, value. */
  predicate SpellsEntry(r: Octets, t: Tlv) {
    var n := |t.value|;
    3 + n <= |r| && r[0] == t.kind && At16(r, 1) == n && r[3..3 + n] == t.value
  }

  /** Entries one after the other, then at most two zero octets. */
  predicate SpellsTlvs(r: Octets, ts: seq<Tlv>)
    decreases |ts|
  {
    if ts == [] then r == [] || r == [0] || r == [0, 0]
    else SpellsEntry(r, ts[0]) && SpellsTlvs(r[3 + |ts[0].value|..], ts[1..])
  }

  /** Marker, length of what follows it, control flags, service and client: 0x01 with one octet of service, 0x02 with two. */
  datatype Envelope = Envelope(size: nat, total: nat, service: nat, client: nat)

  predicate SpellsEnvelope(d: Octets, e: Envelope) {
    && |d| >= 6 && e.total == At16(d, 1) + 1 && e.size <= e.total <= |d|
    && if d[0] == 0x01 then e.size == 6 && e.service == d[4] && e.client == d[5]
       else d[0] == 0x02 && |d| >= 7 && e.size == 7 && e.service == At16(d, 4) && e.client == d[6]
  }

  /** Flags, transaction ID (one octet on the control service), message ID, length of the entries, entries. */
  predicate SpellsBody(b: Octets, p: Packet) {
    if p.service == 0 then
      && |b| >= 6 && p.txId == b[1] && p.msgId == At16(b, 2) && 6 + At16(b, 4) <= |b|
      && (p.indication <==> b[0] % 4 >= 2)
      && SpellsTlvs(b[6..6 + At16(b, 4)], p.tlvs)
    else
      && |b| >= 7 && p.txId == At16(b, 1) && p.msgId == At16(b, 3) && 7 + At16(b, 5) <= |b|
      && (p.indication <==> b[0] % 8 >= 4)
      && SpellsTlvs(b[7..7 + At16(b, 5)], p.tlvs)
  }

  ghost predicate Spells(d: Octets, p: Packet) {
    exists e ::
      SpellsEnvelope(d, e) && p.service == e.service && p.client == e.client && SpellsBody(d[e.size..e.total], p)
  }

  // ---------------------------------------------------------------- reading

  lemma PaddingSpelled(r: Octets)
    ensures IsPadding(r) <==> r == [] || r == [0] || r == [0, 0]
  {
    if IsPadding(r) {
      assert |r| == 1 ==> r == [0];
      assert |r| == 2 ==> r == [0, 0];
    }
  }

  lemma EntrySpelledIff(r: Octets, t: Tlv)
    ensures SpellsEntry(r, t) <==> UnmarshalTlv(r) == Some((t, 3 + |t.value|))
  {
  }

  lemma EntryLengthOfValue(r: Octets)
    requires UnmarshalTlv(r).Some?
    ensures
      var (t, n) := UnmarshalTlv(r).value;
      n == 3 + |t.value| <= |r|
  {
  }

  lemma {:induction false} TlvsSpelledIff(r: Octets, ts: seq<Tlv>)
    ensures SpellsTlvs(r, ts) <==> Parse(r) == Parsed(ts)
    decreases |ts|
  {
    PaddingSpelled(r);
    hide EntryLength, UnmarshalTlv, SpellsEntry, IsPadding;
    if ts == [] {
    } else {
      EntrySpelledIff(r, ts[0]);
      if SpellsEntry(r, ts[0]) {
        EntryIsNoPadding(r, ts[0]);
        EntryLengthOfValue(r);
        var rest := r[3 + |ts[0].value|..];
        TlvsSpelledIff(rest, ts[1..]);
        assert ts == [ts[0]] + ts[1..];
        assert Parse(r) == Parse(rest).Prepend([ts[0]]);
        assert [ts[0]] + Parse(rest).tlvs == ts <==> Parse(rest).tlvs == ts[1..];
      } else if !IsPadding(r) && UnmarshalTlv(r).Some? {
        EntryLengthOfValue(r);
        var (t, n) := UnmarshalTlv(r).value;
        assert ([t] + Parse(r[n..]).tlvs)[0] == t != ts[0];
      }
    }
  }

  lemma EntryIsNoPadding(r: Octets, t: Tlv)
    requires SpellsEntry(r, t)
    ensures !IsPadding(r)
  {
  }

  lemma EnvelopeSpelledIff(d: Octets, e: Envelope)
    ensures SpellsEnvelope(d, e) <==>
            && UnmarshalFrameHeader(d).Ok?
            && var h := UnmarshalFrameHeader(d).value;
               && h.headerSize <= h.length + 1 <= |d|
               && e == Envelope(h.headerSize, h.length + 1, h.service, h.client)
  {
  }

  /** Bit 0x02 of the flags on the control service, bit 0x04 elsewhere. */
  lemma FlagBits(flags: Byte)
    ensures (flags / 2) % 2 == 1 <==> flags % 4 >= 2
    ensures (flags / 4) % 2 == 1 <==> flags % 8 >= 4
  {
  }

  lemma BodySpelledIff(service: U16, client: Byte, b: Octets, p: Packet)
    requires p.service == service && p.client == client
    ensures SpellsBody(b, p) <==> DecodeBody(service, client, b) == Ok(p)
  {
    hide Parse, SpellsTlvs, EntryLength;
    if |b| >= InnerHeaderSize(service) {
      var (flags, txId, msgId, n) := UnmarshalInner(service, b);
      FlagBits(flags);
      var inner := InnerHeaderSize(service);
      if n <= |b| - inner {
        assert b[inner..][..n] == b[inner..inner + n];
        TlvsSpelledIff(b[inner..inner + n], p.tlvs);
      }
    }
  }

  /** Decoding yields a packet exactly when the octets spell it; a string that spells none is refused. */
  lemma DecodesIffSpelled(d: Octets, p: Packet)
    ensures UnmarshalPacket(d) == Ok(p) <==> Spells(d, p)
  {
    hide DecodeBody, SpellsBody, UnmarshalFrameHeader;
    if UnmarshalPacket(d) == Ok(p) {
      var h := UnmarshalFrameHeader(d).value;
      var e := Envelope(h.headerSize, h.length + 1, h.service, h.client);
      EnvelopeSpelledIff(d, e);
      DecodedFor(h.service, h.client, d[e.size..e.total], p);
      BodySpelledIff(h.service, h.client, d[e.size..e.total], p);
    }
    forall e | SpellsEnvelope(d, e) && p.service == e.service && p.client == e.client && SpellsBody(d[e.size..e.total], p)
      ensures UnmarshalPacket(d) == Ok(p)
    {
      EnvelopeSpelledIff(d, e);
      BodySpelledIff(p.service, p.client, d[e.size..e.total], p);
    }
  }

  lemma DecodedFor(service: U16, client: Byte, b: Octets, p: Packet)
    requires DecodeBody(service, client, b) == Ok(p)
    ensures p.service == service && p.client == client
  {
  }

  lemma BitsOfOctet(x: nat, a: nat, b: nat, c: nat, e: nat)
    requires b <= 1 && c <= 1 && e <= 1 && x == 8 * a + 4 * b + 2 * c + e
    ensures x % 8 >= 4 <==> b == 1
    ensures x % 4 >= 2 <==> c == 1
  {
  }

  /** The indication bit: 0x02 on the control service, 0x04 on every other one, whatever the other flags are. */
  lemma IndicationBit(d: Octets, p: Packet, a: nat, b: nat, c: nat, e: nat)
    requires UnmarshalPacket(d) == Ok(p) && b <= 1 && c <= 1 && e <= 1
    requires |d| >= 8 && d[if d[0] == 0x02 then 7 else 6] == 8 * a + 4 * b + 2 * c + e
    ensures p.indication <==> if p.service == 0 then c == 1 else b == 1
  {
    BitsOfOctet(d[if d[0] == 0x02 then 7 else 6], a, b, c, e);
    DecodesIffSpelled(d, p);
    hide UnmarshalPacket, SpellsTlvs, At16;
    var env :| SpellsEnvelope(d, env) && p.service == env.service && SpellsBody(d[env.size..env.total], p);
    var body := d[env.size..env.total];
    assert body[0] == d[env.size];
  }

  // ---------------------------------------------------------------- writing

  /** Entries are written without padding. */
  lemma {:induction false} MarshalledTlvsSpelled(ts: seq<Tlv>)
    requires Encodable(ts)
    ensures SpellsTlvs(MarshalTlvs(ts), ts)
    ensures forall us :: SpellsTlvs(MarshalTlvs(ts), us) ==> us == ts
  {
    hide SpellsTlvs, MarshalTlvs;
    var r := MarshalTlvs(ts);
    assert r == r + Zeros(0);
    ParseComplete(r, ts, 0);
    TlvsSpelledIff(r, ts);
    forall us | SpellsTlvs(r, us) ensures us == ts {
      TlvsSpelledIff(r, us);
    }
  }

  /**
   What is put on the wire for a packet that fits: the one-octet envelope exactly for services up to 0xFF, a
   length that counts everything after the marker, no flags, and the packet itself with eight bits of a
   control transaction ID. Nothing else spells that packet's octets.
   */
  lemma MarshalledPacketSpelled(p: Packet)
    requires Fits(p)
    ensures
      var d := Marshal(p);
      && |d| >= 12 && d[0] == (if p.service <= 0xFF then 0x01 else 0x02)
      && At16(d, 1) == |d| - 1 && d[3] == 0 && d[OuterHeaderSize(p.service)] == 0
      && Spells(d, p.(indication := false, txId := if p.service == 0 then p.txId % 0x100 else p.txId))
  {
    RoundTripIffFits(p);
    DecodesIffSpelled(Marshal(p), Normalize(p));
    hide UnmarshalPacket, Spells, MarshalTlvs;
    MarshalledEnds(p);
  }

  lemma EnvelopeEnds(service: U16, client: Byte, bodyLen: nat)
    requires OuterHeaderSize(service) + bodyLen <= 0x1_0000
    ensures
      var head := MarshalFrameHeader(service, client, bodyLen);
      && head[0] == (if service <= 0xFF then 0x01 else 0x02)
      && At16(head, 1) == |head| + bodyLen - 1 && head[3] == 0
  {
    var n := OuterHeaderSize(service) + bodyLen - 1;
    LittleEndian(n);
    hide Le16;
    var head := MarshalFrameHeader(service, client, bodyLen);
    assert head[1] == Le16(n)[0] && head[2] == Le16(n)[1];
  }

  lemma LittleEndian(n: nat)
    requires n < 0x1_0000
    ensures Le16(n)[0] as int + 0x100 * Le16(n)[1] as int == n
  {
  }

  lemma MarshalledEnds(p: Packet)
    requires Fits(p)
    ensures
      var d := Marshal(p);
      && |d| >= 12 && d[0] == (if p.service <= 0xFF then 0x01 else 0x02)
      && At16(d, 1) == |d| - 1 && d[3] == 0 && d[OuterHeaderSize(p.service)] == 0
  {
    hide MarshalTlvs, MarshalFrameHeader, Le16;
    var d, body := Marshal(p), Body(p);
    var head := MarshalFrameHeader(p.service, p.client, |body|);
    EnvelopeEnds(p.service, p.client, |body|);
    assert d == head + body && body[0] == 0;
    assert forall i :: 0 <= i < |head| ==> d[i] == head[i];
    assert d[|head|] == body[0];
  }
}
