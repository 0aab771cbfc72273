/**
 The resynchronising stream parser of `Client.readLoop` (pkg/qmi/client.go).
 `Scan` is the one-shot specification; `ReadLoop` is the incremental loop over arbitrary reads.
 */
module Deframer {
  import opened Bytes
  import opened Frame

  predicate IsMarker(b: Byte) {
    b == 0x01 || b == 0x02
  }

  /** Octets no frame starts with: anything but the QMUX marker 0x01 and the QRTR virtual marker 0x02. */
  ghost predicate IsGarbage(s: Octets) {
    forall i :: 0 <= i < |s| ==> s[i] != 0x01 && s[i] != 0x02
  }

  /** Complete frames in stream order, and the octets that may still become one. */
  datatype Scanned = Scanned(frames: seq<Octets>, rest: Octets) {
    function Prepend(fs: seq<Octets>): Scanned {
      this.(frames := fs + frames)
    }
  }

  /** Size announced by the length field at the front of `s`. */
  function FrameLength(s: Octets): nat
    requires |s| >= 3
  {
    1 + FromLe16(s[1], s[2])
  }

  function Scan(s: Octets): Scanned {
    if s == [] then Scanned([], [])
    else if !IsMarker(s[0]) then Scan(s[1..])
    else if |s| < QMUX_HEADER_SIZE then Scanned([], s)
    else if FrameLength(s) < QMUX_HEADER_SIZE then Scan(s[1..])
    else if |s| < FrameLength(s) then Scanned([], s)
    else Scan(s[FrameLength(s)..]).Prepend([s[..FrameLength(s)]])
  }

  /** A marker octet followed by a length field that announces exactly this many octets. */
  ghost predicate IsFrame(f: Octets) {
    |f| >= QMUX_HEADER_SIZE && IsMarker(f[0]) && FrameLength(f) == |f|
  }

  lemma ScanFrame(f: Octets, tail: Octets)
    requires IsFrame(f)
    ensures Scan(f + tail) == Scan(tail).Prepend([f])
  {
    var s := f + tail;
    assert s[..|f|] == f && s[|f|..] == tail;
  }

  /** The three ways a scan leaves a marker once a whole header is there. */
  lemma ScanAtMarker(s: Octets)
    requires |s| >= QMUX_HEADER_SIZE && IsMarker(s[0])
    ensures FrameLength(s) < QMUX_HEADER_SIZE ==> Scan(s) == Scan(s[1..])
    ensures |s| < FrameLength(s) ==> Scan(s) == Scanned([], s)
    ensures QMUX_HEADER_SIZE <= FrameLength(s) <= |s| ==>
              Scan(s) == Scan(s[FrameLength(s)..]).Prepend([s[..FrameLength(s)]])
  {
  }

  /** Scanning can stop anywhere and resume on the leftover. */
  lemma {:induction false} ScanAppend(s: Octets, c: Octets)
    ensures Scan(s + c) == Scan(Scan(s).rest + c).Prepend(Scan(s).frames)
    decreases |s|
  {
    if s == [] {
      assert s + c == c;
    } else if !IsMarker(s[0]) || (|s| >= QMUX_HEADER_SIZE && FrameLength(s) < QMUX_HEADER_SIZE) {
      ScanAppend(s[1..], c);
      assert (s + c)[1..] == s[1..] + c;
    } else if |s| >= QMUX_HEADER_SIZE && |s| >= FrameLength(s) {
      ScanAppendFrame(s[..FrameLength(s)], s[FrameLength(s)..], c);
      assert s == s[..FrameLength(s)] + s[FrameLength(s)..];
    }
  }

  lemma {:induction false} ScanAppendFrame(f: Octets, tail: Octets, c: Octets)
    requires IsFrame(f)
    ensures Scan(f + tail + c) == Scan(Scan(f + tail).rest + c).Prepend(Scan(f + tail).frames)
    decreases |tail| + 1
  {
    ScanFrame(f, tail);
    ScanFrame(f, tail + c);
    assert f + tail + c == f + (tail + c);
    ScanAppend(tail, c);
  }

  lemma {:induction false} ScanSkipsGarbage(g: Octets, s: Octets)
    requires IsGarbage(g)
    ensures Scan(g + s) == Scan(s)
    decreases |g|
  {
    if g == [] {
      assert g + s == s;
    } else {
      ScanSkipsGarbage(g[1..], s);
      assert (g + s)[1..] == g[1..] + s;
    }
  }

  /** Fewer octets than a header never yield a frame; only leading garbage is dropped. */
  lemma {:induction false} ScanShort(s: Octets)
    requires |s| < QMUX_HEADER_SIZE
    ensures Scan(s).frames == []
    ensures |Scan(s).rest| <= |s| && IsGarbage(s[..|s| - |Scan(s).rest|])
    ensures Scan(s).rest == s[|s| - |Scan(s).rest|..]
    decreases |s|
  {
    if s != [] && !IsMarker(s[0]) {
      ScanShort(s[1..]);
      var k := |s| - |Scan(s).rest|;
      assert s[..k] == [s[0]] + s[1..][..k - 1];
    }
  }

  /** `pending` is the specification's leftover, up to leading garbage that is left only in front of fewer than 3 octets. */
  ghost predicate Holds(pending: Octets, rest: Octets) {
    && Scan(pending) == Scanned([], rest)
    && |rest| <= |pending| < 0x1_0000
    && (rest == pending || |pending| < 3)
    && rest == pending[|pending| - |rest|..]
    && IsGarbage(pending[..|pending| - |rest|])
  }

  /** The inner loop of `readLoop`: take every complete frame out of `pending`. */
  method DrainPending(input: Octets) returns (frames: seq<Octets>, pending: Octets)
    ensures frames == Scan(input).frames
    ensures Holds(pending, Scan(input).rest)
  {
    hide Scan, IsFrame;
    frames, pending := [], input;
    while true
      invariant Scan(input) == Scan(pending).Prepend(frames)
      decreases |pending|
    {
      if |pending| < 3 {
        ScanShort(pending);
        break;
      }
      if !IsMarker(pending[0]) {
        var i := 0;
        while i < |pending| && !IsMarker(pending[i])
          invariant 0 <= i <= |pending|
          invariant IsGarbage(pending[..i])
        {
          i := i + 1;
        }
        ScanSkipsGarbage(pending[..i], pending[i..]);
        assert pending[..i] + pending[i..] == pending;
        pending := pending[i..];
        if |pending| == 0 {
          ScanShort(pending);
          break;
        }
        continue;
      }
      if |pending| < QMUX_HEADER_SIZE {
        ScanShort(pending);
        break;
      }
      ScanAtMarker(pending);
      var frameLen := FrameLength(pending);
      if frameLen < QMUX_HEADER_SIZE {
        pending := pending[1..];
        continue;
      }
      if |pending| < frameLen {
        break;
      }
      frames := frames + [pending[..frameLen]];
      pending := pending[frameLen..];
    }
  }

  // ---------------------------------------------------------------- decoding what the loop emits

  datatype Decoded = Decoded(packets: seq<Packet>, parseErrors: nat) {
    function Append(d: Decoded): Decoded {
      Decoded(packets + d.packets, parseErrors + d.parseErrors)
    }
  }

  /** Frames that decode, in order; the others only bump the parse-error counter. */
  function DecodeAll(frames: seq<Octets>): Decoded {
    if frames == [] then Decoded([], 0)
    else PrependDecoded(frames[0], DecodeAll(frames[1..]))
  }

  function PrependDecoded(frame: Octets, tail: Decoded): Decoded {
    match UnmarshalPacket(frame)
    case Ok(p) => tail.(packets := [p] + tail.packets)
    case Err(_) => tail.(parseErrors := tail.parseErrors + 1)
  }

  lemma DecodeAllCons(f: Octets, fs: seq<Octets>)
    ensures DecodeAll([f] + fs) == PrependDecoded(f, DecodeAll(fs))
  {
    hide PrependDecoded;
    assert ([f] + fs)[1..] == fs;
  }

  lemma PrependAppends(f: Octets, a: Decoded, b: Decoded)
    ensures PrependDecoded(f, a.Append(b)) == PrependDecoded(f, a).Append(b)
  {
    hide UnmarshalPacket;
    match UnmarshalPacket(f) {
      case Ok(p) => assert [p] + (a.packets + b.packets) == [p] + a.packets + b.packets;
      case Err(_) =>
    }
  }

  lemma {:induction false} DecodeAllAppend(fs: seq<Octets>, gs: seq<Octets>)
    ensures DecodeAll(fs + gs) == DecodeAll(fs).Append(DecodeAll(gs))
  {
    if fs == [] {
      assert fs + gs == gs;
      assert DecodeAll(gs) == Decoded([], 0).Append(DecodeAll(gs));
    } else {
      hide DecodeAll, PrependDecoded, Decoded.Append;
      var f, tail := fs[0], fs[1..];
      assert fs == [f] + tail && fs + gs == [f] + (tail + gs);
      DecodeAllCons(f, tail);
      DecodeAllCons(f, tail + gs);
      DecodeAllAppend(tail, gs);
      PrependAppends(f, DecodeAll(tail), DecodeAll(gs));
    }
  }

  /** Every frame is accounted for: as a packet or as a parse error. */
  lemma {:induction false} EveryFrameCounts(fs: seq<Octets>)
    ensures |DecodeAll(fs).packets| + DecodeAll(fs).parseErrors == |fs|
    ensures DecodeAll(fs).parseErrors == 0 <==> forall i :: 0 <= i < |fs| ==> UnmarshalPacket(fs[i]).Ok?
  {
    hide UnmarshalPacket;
    if fs == [] {
    } else {
      EveryFrameCounts(fs[1..]);
      if forall i :: 0 <= i < |fs| ==> UnmarshalPacket(fs[i]).Ok? {
        assert forall i :: 0 <= i < |fs[1..]| ==> fs[1..][i] == fs[i + 1];
      } else {
        assert forall i :: 1 <= i < |fs| ==> fs[i] == fs[1..][i - 1];
      }
    }
  }

  function Flatten(chunks: seq<Octets>): Octets {
    if chunks == [] then [] else Flatten(chunks[..|chunks| - 1]) + chunks[|chunks| - 1]
  }

  /** What one-shot deframing of a stream allows a reader of it to have emitted and kept. */
  ghost predicate IsDecoding(stream: Octets, packets: seq<Packet>, parseErrors: nat, pending: Octets) {
    && Decoded(packets, parseErrors) == DecodeAll(Scan(stream).frames)
    && Holds(pending, Scan(stream).rest)
  }

  /**
   `readLoop`: append each read to `pending`, drain it, decode what came out. A read that timed out
   or returned nothing is an empty element of `chunks`.
   */
  method ReadLoop(chunks: seq<Octets>) returns (packets: seq<Packet>, parseErrors: nat, pending: Octets)
    ensures IsDecoding(Flatten(chunks), packets, parseErrors, pending)
  {
    hide UnmarshalPacket, DecodeAll, Scan, Flatten, Holds;
    packets, parseErrors, pending := [], 0, [];
    ReadLoopStart();
    for i := 0 to |chunks|
      invariant Decoded(packets, parseErrors) == DecodeAll(Scan(Flatten(chunks[..i])).frames)
      invariant Holds(pending, Scan(Flatten(chunks[..i])).rest)
    {
      ghost var seen := Scan(Flatten(chunks[..i]));
      FlattenSnoc(chunks, i);
      ScanResumes(Flatten(chunks[..i]), pending, chunks[i]);
      var frames;
      frames, pending := DrainPending(pending + chunks[i]);
      assert seen.frames + frames[..0] == seen.frames;
      for j := 0 to |frames|
        invariant Decoded(packets, parseErrors) == DecodeAll(seen.frames + frames[..j])
      {
        DecodeAllSnoc(seen.frames + frames[..j], frames[j]);
        assert seen.frames + frames[..j + 1] == seen.frames + frames[..j] + [frames[j]];
        match UnmarshalPacket(frames[j]) {
          case Ok(p) => packets := packets + [p];
          case Err(_) => parseErrors := parseErrors + 1;
        }
      }
      assert frames[..|frames|] == frames;
    }
    assert chunks[..|chunks|] == chunks;
  }

  /** Reading on from what the loop kept is reading on from the stream. */
  lemma ScanResumes(stream: Octets, pending: Octets, chunk: Octets)
    requires Holds(pending, Scan(stream).rest)
    ensures Scan(stream + chunk) == Scan(pending + chunk).Prepend(Scan(stream).frames)
  {
    hide Scan, IsGarbage;
    ScanAppend(stream, chunk);
    ScanAppend(pending, chunk);
  }

  lemma ReadLoopStart()
    ensures DecodeAll(Scan(Flatten([])).frames) == Decoded([], 0)
    ensures Holds([], Scan(Flatten([])).rest)
  {
  }

  lemma FlattenSnoc(chunks: seq<Octets>, i: nat)
    requires i < |chunks|
    ensures Flatten(chunks[..i + 1]) == Flatten(chunks[..i]) + chunks[i]
  {
    assert chunks[..i + 1][..i] == chunks[..i];
  }

  lemma DecodeAllSnoc(fs: seq<Octets>, f: Octets)
    ensures DecodeAll(fs + [f]) ==
            match UnmarshalPacket(f)
            case Ok(p) => Decoded(DecodeAll(fs).packets + [p], DecodeAll(fs).parseErrors)
            case Err(_) => Decoded(DecodeAll(fs).packets, DecodeAll(fs).parseErrors + 1)
  {
    hide UnmarshalPacket;
    DecodeAllAppend(fs, [f]);
    assert DecodeAll([f][1..]) == Decoded([], 0);
  }

  // ---------------------------------------------------------------- end to end

  /** `gaps[i]` precedes packet `i`; the last gap trails the stream. */
  function Wire(ps: seq<Packet>, gaps: seq<Octets>): Octets
    requires |gaps| == |ps| + 1
  {
    if ps == [] then gaps[0] else gaps[0] + (Marshal(ps[0]) + Wire(ps[1..], gaps[1..]))
  }

  function NormalizeAll(ps: seq<Packet>): seq<Packet> {
    if ps == [] then [] else [Normalize(ps[0])] + NormalizeAll(ps[1..])
  }

  /** Packet by packet, only the indication flag and the high octet of a control transaction ID are lost. */
  lemma {:induction false} NormalizeAllAt(ps: seq<Packet>)
    ensures |NormalizeAll(ps)| == |ps|
    ensures forall i :: 0 <= i < |ps| ==>
                          NormalizeAll(ps)[i] == ps[i].(indication := false, txId := if ps[i].service == 0 then ps[i].txId % 0x100 else ps[i].txId)
  {
    if ps == [] {
    } else {
      NormalizeAllAt(ps[1..]);
    }
  }

  lemma ExactHeaderIsFrame(d: Octets, h: FrameHeader)
    requires UnmarshalFrameHeader(d) == Ok(h) && |d| == h.length + 1
    ensures IsFrame(d)
  {
  }

  lemma EnvelopeIsFrame(service: U16, client: Byte, body: Octets)
    requires OuterHeaderSize(service) + |body| <= 0x1_0000
    ensures IsFrame(MarshalFrameHeader(service, client, |body|) + body)
  {
    hide MarshalFrameHeader, UnmarshalFrameHeader, IsFrame;
    var head := MarshalFrameHeader(service, client, |body|);
    FrameHeaderRoundTrip(service, client, body);
    ExactHeaderIsFrame(head + body, UnmarshalFrameHeader(head + body).value);
  }

  lemma MarshalledFrameScans(p: Packet, tail: Octets)
    requires Fits(p)
    ensures Scan(Marshal(p) + tail) == Scan(tail).Prepend([Marshal(p)])
  {
    hide MarshalFrameHeader, InnerHeader, MarshalTlvs, Scan, IsFrame;
    EnvelopeIsFrame(p.service, p.client, Body(p));
    ScanFrame(Marshal(p), tail);
  }

  lemma {:induction false} WireScans(ps: seq<Packet>, gaps: seq<Octets>)
    requires |gaps| == |ps| + 1
    requires forall i :: 0 <= i < |ps| ==> Fits(ps[i])
    requires forall i :: 0 <= i < |gaps| ==> IsGarbage(gaps[i])
    ensures DecodeAll(Scan(Wire(ps, gaps)).frames) == Decoded(NormalizeAll(ps), 0)
    ensures Scan(Wire(ps, gaps)).rest == []
    decreases |ps|
  {
    hide Scan, Marshal, UnmarshalPacket, Fits, Normalize;
    if ps == [] {
      ScanSkipsGarbage(gaps[0], []);
      assert gaps[0] + [] == gaps[0];
      ScanShort([]);
    } else {
      var tail := Wire(ps[1..], gaps[1..]);
      ScanSkipsGarbage(gaps[0], Marshal(ps[0]) + tail);
      MarshalledFrameScans(ps[0], tail);
      WireScans(ps[1..], gaps[1..]);
      RoundTripIffFits(ps[0]);
      assert ([Marshal(ps[0])] + Scan(tail).frames)[1..] == Scan(tail).frames;
    }
  }

  /**
   Packets within the length limit, separated by arbitrary octets other than the two markers: whatever
   reads the stream is cut into, the read loop emits exactly these packets in order and counts no parse
   error, and what it still holds is at most two octets of garbage.
   */
  lemma StreamRoundTrip(
    ps: seq<Packet>, gaps: seq<Octets>, chunks: seq<Octets>, packets: seq<Packet>, parseErrors: nat, pending: Octets)
    requires |gaps| == |ps| + 1
    requires forall i :: 0 <= i < |ps| ==> Fits(ps[i])
    requires forall i :: 0 <= i < |gaps| ==> IsGarbage(gaps[i])
    requires Flatten(chunks) == Wire(ps, gaps) && IsDecoding(Flatten(chunks), packets, parseErrors, pending)
    ensures packets == NormalizeAll(ps) && parseErrors == 0
    ensures |pending| < 3 && IsGarbage(pending)
  {
    hide Scan, DecodeAll, Wire, NormalizeAll, IsGarbage, Fits, Flatten;
    WireScans(ps, gaps);
    assert pending[..|pending|] == pending;
  }
}
