/**
 A declarative reading of deframing, independent of the scan order: which octets of a stream are frames,
 which are skipped, and where the unfinished rest begins (the loop of pkg/qmi/client.go).
 */
module StreamLayout {
  import opened Bytes
  import opened Frame
  import opened Deframer

  /** The two octets a frame can start with: QMUX and the QRTR virtual header. */
  predicate Marks(b: Byte) {
    b == 0x01 || b == 0x02
  }

  /** The length field counts what follows the marker, low octet first. */
  function LengthAt(s: Octets, at: nat): nat
    requires at + 3 <= |s|
  {
    1 + s[at + 1] as int + 0x100 * s[at + 2] as int
  }

  /** A complete frame starts here. */
  predicate FrameAt(s: Octets, at: nat) {
    at + 6 <= |s| && Marks(s[at]) && 6 <= LengthAt(s, at) <= |s| - at
  }

  /** No frame starts here, whatever arrives later: no marker, or a length shorter than a header. */
  predicate Barren(s: Octets, at: nat)
    requires at < |s|
  {
    !Marks(s[at]) || (at + 6 <= |s| && LengthAt(s, at) < 6)
  }

  /** The end of the stream, or a frame that has not arrived completely. */
  predicate Unfinished(s: Octets, at: nat) {
    at == |s| || (at < |s| && Marks(s[at]) && (|s| - at < 6 || |s| - at < LengthAt(s, at)))
  }

  /** One past the frame that starts here. */
  function EndAt(s: Octets, at: nat): nat {
    if FrameAt(s, at) then at + LengthAt(s, at) else at
  }

  ghost predicate Covered(s: Octets, starts: seq<nat>, x: nat) {
    exists i :: 0 <= i < |starts| && starts[i] <= x < EndAt(s, starts[i])
  }

  /** From `p` on: disjoint frames in stream order, an unfinished rest at `cut`, and only barren octets elsewhere. */
  ghost predicate Layout(s: Octets, p: nat, starts: seq<nat>, cut: nat) {
    && p <= cut <= |s| && Unfinished(s, cut)
    && (forall i :: 0 <= i < |starts| ==> FrameAt(s, starts[i]) && p <= starts[i] && EndAt(s, starts[i]) <= cut)
    && (forall i, j :: 0 <= i < j < |starts| ==> EndAt(s, starts[i]) <= starts[j])
    && (forall x :: p <= x < cut && !Covered(s, starts, x) ==> Barren(s, x))
  }

  function Frames(s: Octets, starts: seq<nat>): seq<Octets>
    requires forall i :: 0 <= i < |starts| ==> FrameAt(s, starts[i])
  {
    if starts == [] then []
    else
      assert FrameAt(s, starts[0]);
      [s[starts[0]..EndAt(s, starts[0])]] + Frames(s, starts[1..])
  }

  // ---------------------------------------------------------------- one position of the scan

  lemma ScanFromBarren(s: Octets, p: nat)
    requires p < |s| && Barren(s, p)
    ensures Scan(s[p..]) == Scan(s[p + 1..])
  {
    assert s[p..][1..] == s[p + 1..];
  }

  lemma ScanFromFrame(s: Octets, p: nat)
    requires FrameAt(s, p)
    ensures Scan(s[p..]) == Scan(s[EndAt(s, p)..]).Prepend([s[p..EndAt(s, p)]])
  {
    var n := LengthAt(s, p);
    assert s[p..][n..] == s[p + n..] && s[p..][..n] == s[p..p + n];
  }

  lemma ScanFromUnfinished(s: Octets, p: nat)
    requires Unfinished(s, p)
    ensures Scan(s[p..]) == Scanned([], s[p..])
  {
  }

  lemma FirstFrameFirst(s: Octets, p: nat, starts: seq<nat>, cut: nat)
    requires Layout(s, p, starts, cut)
    ensures starts != [] && starts[0] == p ==> Layout(s, EndAt(s, p), starts[1..], cut)
    ensures p < cut && (starts == [] || starts[0] != p) ==> Barren(s, p) && Layout(s, p + 1, starts, cut)
    ensures p == cut ==> starts == []
  {
    if starts != [] && starts[0] == p {
      forall x | EndAt(s, p) <= x < cut && !Covered(s, starts[1..], x) ensures Barren(s, x) {
        forall i | 0 <= i < |starts| ensures !(starts[i] <= x < EndAt(s, starts[i])) {
          assert i == 0 || starts[i] == starts[1..][i - 1];
        }
      }
    } else if p < cut {
      assert forall i :: 0 < i < |starts| ==> EndAt(s, starts[0]) <= starts[i];
      assert !Covered(s, starts, p);
    }
  }

  /** Every layout is the one the scan finds. */
  lemma {:induction false} LayoutDeterminesScan(s: Octets, p: nat, starts: seq<nat>, cut: nat)
    requires Layout(s, p, starts, cut)
    ensures Scan(s[p..]) == Scanned(Frames(s, starts), s[cut..])
    decreases |s| - p
  {
    hide Scan, Barren, Unfinished;
    FirstFrameFirst(s, p, starts, cut);
    if starts != [] && starts[0] == p {
      ScanFromFrame(s, p);
      LayoutDeterminesScan(s, EndAt(s, p), starts[1..], cut);
    } else if p < cut {
      ScanFromBarren(s, p);
      LayoutDeterminesScan(s, p + 1, starts, cut);
    } else {
      ScanFromUnfinished(s, p);
    }
  }

  lemma FrameInFront(s: Octets, p: nat, starts: seq<nat>, cut: nat)
    requires FrameAt(s, p) && Layout(s, EndAt(s, p), starts, cut)
    ensures Layout(s, p, [p] + starts, cut)
  {
    var all := [p] + starts;
    forall x | p <= x < cut && !Covered(s, all, x) ensures Barren(s, x) {
      assert all[0] == p;
      forall i | 0 <= i < |starts| ensures !(starts[i] <= x < EndAt(s, starts[i])) {
        assert starts[i] == all[i + 1];
      }
    }
  }

  /** Every stream has a layout. */
  lemma {:induction false} LayoutExists(s: Octets, p: nat) returns (starts: seq<nat>, cut: nat)
    requires p <= |s|
    ensures Layout(s, p, starts, cut)
    decreases |s| - p
  {
    if Unfinished(s, p) {
      starts, cut := [], p;
    } else if FrameAt(s, p) {
      starts, cut := LayoutExists(s, EndAt(s, p));
      FrameInFront(s, p, starts, cut);
      starts := [p] + starts;
    } else {
      starts, cut := LayoutExists(s, p + 1);
    }
  }

  /**
   The one-shot deframer computes the layout of the stream and nothing else: each emitted frame is a
   self-sized stretch of the stream, every octet outside them is one no frame can start at, and the rest
   begins where a frame may still complete.
   */
  lemma ScanIffLayout(s: Octets, frames: seq<Octets>, rest: Octets)
    ensures Scan(s) == Scanned(frames, rest) <==>
            exists starts: seq<nat>, cut: nat :: Layout(s, 0, starts, cut) && frames == Frames(s, starts) && rest == s[cut..]
  {
    hide Scan, Covered, Barren, Unfinished;
    assert s[0..] == s;
    var at, c := LayoutExists(s, 0);
    LayoutDeterminesScan(s, 0, at, c);
    forall starts: seq<nat>, cut: nat | Layout(s, 0, starts, cut) && frames == Frames(s, starts) && rest == s[cut..]
      ensures Scan(s) == Scanned(frames, rest)
    {
      LayoutDeterminesScan(s, 0, starts, cut);
    }
  }
}
