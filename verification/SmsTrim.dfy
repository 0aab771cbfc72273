/**
 Trimming a received SMS-DELIVER TPDU to its declared length (pkg/manager/sms_trim.go). Layout: 3GPP TS
 23.040 section 9.2.2.1; user data length and 7-bit packing: 3GPP TS 23.040 section 9.2.3.16 and 3GPP TS
 23.038 section 6.1.2.1. The mapping from the data coding scheme to an alphabet is a parameter.
 */
module SmsTrim {
  import opened Bytes

  type Octet = bv8
  datatype Alphabet = Alpha7Bit | Alpha8Bit | AlphaUcs2 | AlphaReserved
  type AlphabetOf = Octet -> Option<Alphabet>

  /** Where the declared user data starts and ends. */
  datatype Declared = Declared(start: nat, alphabet: Alphabet, udl: nat) {
    function Octets(): nat {
      if alphabet == Alpha7Bit then (udl * 7 + 7) / 8 else udl
    }

    function End(): nat {
      start + Octets()
    }
  }

  // ---------------------------------------------------------------- declared length

  /** First octet, address length, type of address, digits, PID, DCS, seven timestamp octets, UDL. */
  function UserDataStart(t: seq<Octet>): nat
    requires |t| >= 2
  {
    13 + (t[1] as int + 1) / 2
  }

  /** The declared extent, when the TPDU is an SMS-DELIVER that holds all of it. */
  function Extent(t: seq<Octet>, alphabetOf: AlphabetOf): (r: Option<Declared>)
    ensures r.Some? ==> 13 <= r.value.start && r.value.End() <= |t|
  {
    if |t| < 3 || t[0] & 0x03 != 0 || |t| < UserDataStart(t) then None
    else
      var start := UserDataStart(t);
      match alphabetOf(t[start - 9])
      case None => None
      case Some(a) =>
        var d := Declared(start, a, t[start - 1] as int);
        if d.End() > |t| then None else Some(d)
  }

  /** `deliverTPDUDeclaredLength`: the walking index, with a bounds test before each field. */
  method DeclaredLength(t: seq<Octet>, alphabetOf: AlphabetOf) returns (r: Option<Declared>)
    ensures r == Extent(t, alphabetOf)
  {
    if |t| < 1 || t[0] & 0x03 != 0 {
      return None;
    }
    var i := 1;
    if i + 2 > |t| {
      return None;
    }
    var oaOctets := (t[i] as int + 1) / 2;
    i := i + 2;
    if i + oaOctets > |t| {
      return None;
    }
    i := i + oaOctets;
    if i + 10 > |t| {
      return None;
    }
    var dcs := t[i + 1];
    i := i + 2 + 7;
    var udl := t[i] as int;
    i := i + 1;
    var alphabet := alphabetOf(dcs);
    if alphabet.None? {
      return None;
    }
    var d := Declared(i, alphabet.value, udl);
    if d.End() > |t| {
      return None;
    }
    return Some(d);
  }

  // ---------------------------------------------------------------- trimming

  /** `1<<k - 1`: the `k` low bits. */
  function LowBits(k: nat): Octet
    requires 0 < k < 8
  {
    match k
    case 1 => 0x01 case 2 => 0x03 case 3 => 0x07 case 4 => 0x0F
    case 5 => 0x1F case 6 => 0x3F case 7 => 0x7F
  }

  function Masked(b: Octet, k: nat): Octet
    requires 0 < k < 8
  {
    b & LowBits(k)
  }

  function PaddingBits(d: Declared): nat {
    if d.alphabet == Alpha7Bit then (d.udl * 7 + 7) / 8 * 8 - d.udl * 7 else 0
  }

  function TrimTo(t: seq<Octet>, d: Declared): (r: seq<Octet>)
    requires 0 < d.start && d.End() <= |t|
    ensures |r| == d.End()
  {
    var cut := t[..d.End()];
    if PaddingBits(d) == 0 then cut
    else cut[d.End() - 1 := Masked(cut[d.End() - 1], 8 - PaddingBits(d))]
  }

  /** The source's result: the trimmed copy, or the input itself when the extent is not there. */
  function Trim(t: seq<Octet>, alphabetOf: AlphabetOf): (seq<Octet>, bool) {
    match Extent(t, alphabetOf)
    case None => (t, false)
    case Some(d) => (TrimTo(t, d), true)
  }

  method TrimToDeclaredLength(t: seq<Octet>, alphabetOf: AlphabetOf) returns (out: seq<Octet>, trimmed: bool)
    ensures (out, trimmed) == Trim(t, alphabetOf)
  {
    hide Extent, LowBits;
    var declared := DeclaredLength(t, alphabetOf);
    if declared.None? || declared.value.End() > |t| {
      return t, false;
    }
    var d := declared.value;
    var want := d.End();
    var copy := new Octet[want](i requires 0 <= i < |t| => t[i]);
    if d.alphabet == Alpha7Bit && want > 0 {
      var udOctets := (d.udl * 7 + 7) / 8;
      var paddingBits := udOctets * 8 - d.udl * 7;
      if paddingBits > 0 && paddingBits < 8 {
        copy[want - 1] := copy[want - 1] & LowBits(8 - paddingBits);
      }
    }
    out, trimmed := copy[..], true;
    assert out == TrimTo(t, d);
  }

  // ---------------------------------------------------------------- meaning

  function BitMask(i: nat): Octet
    requires i < 8
  {
    match i
    case 0 => 0x01 case 1 => 0x02 case 2 => 0x04 case 3 => 0x08
    case 4 => 0x10 case 5 => 0x20 case 6 => 0x40 case 7 => 0x80
  }

  predicate HasBit(b: Octet, i: nat)
    requires i < 8
  {
    b & BitMask(i) != 0
  }

  predicate Bit(ud: seq<Octet>, x: nat, y: nat)
    requires x < |ud| && y < 8
  {
    HasBit(ud[x], y)
  }

  /** Bit `n` of the user data: septets are packed from the low end of each octet. */
  predicate BitAt(ud: seq<Octet>, n: nat)
    requires n < 8 * |ud|
  {
    Bit(ud, n / 8, n % 8)
  }

  lemma MaskedBit(b: Octet, k: nat, i: nat)
    requires 0 < k < 8 && i < 8
    ensures HasBit(Masked(b, k), i) <==> i < k && HasBit(b, i)
  {
    match k
    case 1 => MaskCase(b, i, LowBits(1)); case 2 => MaskCase(b, i, LowBits(2)); case 3 => MaskCase(b, i, LowBits(3));
    case 4 => MaskCase(b, i, LowBits(4)); case 5 => MaskCase(b, i, LowBits(5)); case 6 => MaskCase(b, i, LowBits(6));
    case 7 => MaskCase(b, i, LowBits(7));
  }

  lemma MaskCase(b: Octet, i: nat, m: Octet)
    requires i < 8
    ensures (b & m) & BitMask(i) == b & (m & BitMask(i))
  {
  }

  /** Octets with the same bits are the same octet. */
  lemma SameBits(a: Octet, b: Octet)
    requires forall i: nat :: i < 8 ==> (HasBit(a, i) <==> HasBit(b, i))
    ensures a == b
  {
    assert forall i: nat :: i < 8 ==> a & BitMask(i) == b & BitMask(i) by {
      forall i: nat | i < 8 ensures a & BitMask(i) == b & BitMask(i) {
        assert HasBit(a, i) <==> HasBit(b, i);
        assert a & BitMask(i) == 0 || a & BitMask(i) == BitMask(i);
        assert b & BitMask(i) == 0 || b & BitMask(i) == BitMask(i);
      }
    }
    assert a & BitMask(0) == b & BitMask(0) && a & BitMask(1) == b & BitMask(1) && a & BitMask(2) == b & BitMask(2)
        && a & BitMask(3) == b & BitMask(3) && a & BitMask(4) == b & BitMask(4) && a & BitMask(5) == b & BitMask(5)
        && a & BitMask(6) == b & BitMask(6) && a & BitMask(7) == b & BitMask(7);
  }

  /** Everything before the user data is untouched; in other alphabets so is the user data. */
  lemma HeaderUntouched(t: seq<Octet>, d: Declared)
    requires 0 < d.start && d.End() <= |t|
    ensures TrimTo(t, d)[..d.start] == t[..d.start]
    ensures d.alphabet != Alpha7Bit ==> TrimTo(t, d) == t[..d.End()]
  {
    assert PaddingBits(d) > 0 ==> d.End() - 1 >= d.start;
  }

  /** Padding occupies the high bits of the last octet and nothing else. */
  lemma PaddingPosition(d: Declared, x: nat, y: nat)
    requires d.alphabet == Alpha7Bit && x < d.Octets() && y < 8
    ensures PaddingBits(d) < 8
    ensures 8 * x + y < 7 * d.udl <==> x < d.Octets() - 1 || y < 8 - PaddingBits(d)
  {
  }

  lemma TrimmedOctet(t: seq<Octet>, d: Declared, x: nat)
    requires 0 < d.start && d.End() <= |t| && d.alphabet == Alpha7Bit && x < d.Octets()
    ensures PaddingBits(d) < 8
    ensures TrimTo(t, d)[d.start..][x] ==
            if PaddingBits(d) > 0 && x == d.Octets() - 1 then Masked(t[d.start..][x], 8 - PaddingBits(d))
            else t[d.start..][x]
  {
    hide Masked;
  }

  lemma KeptBit(t: seq<Octet>, d: Declared, x: nat, y: nat)
    requires 0 < d.start && d.End() <= |t| && d.alphabet == Alpha7Bit && x < d.Octets() && y < 8
    ensures Bit(TrimTo(t, d)[d.start..], x, y) <==> 8 * x + y < 7 * d.udl && Bit(t[d.start..], x, y)
  {
    hide HasBit, Masked, TrimTo, PaddingBits, Declared.Octets;
    PaddingPosition(d, x, y);
    TrimmedOctet(t, d, x);
    var was := t[d.start..][x];
    if PaddingBits(d) > 0 && x == d.Octets() - 1 {
      MaskedBit(was, 8 - PaddingBits(d), y);
      assert 8 * x + y < 7 * d.udl <==> y < 8 - PaddingBits(d);
    } else {
      assert 8 * x + y < 7 * d.udl;
    }
  }

  /** Trimming keeps every bit of the declared septets and clears exactly the padding after them. */
  lemma SeptetsKeptPaddingCleared(t: seq<Octet>, d: Declared, n: nat)
    requires 0 < d.start && d.End() <= |t| && d.alphabet == Alpha7Bit && n < 8 * d.Octets()
    ensures BitAt(TrimTo(t, d)[d.start..], n) <==> n < 7 * d.udl && BitAt(t[d.start..], n)
  {
    hide Bit, TrimTo, Declared.Octets;
    KeptBit(t, d, n / 8, n % 8);
  }

  function BitValue(ud: seq<Octet>, n: nat): nat
    requires n < 8 * |ud|
  {
    if BitAt(ud, n) then 1 else 0
  }

  /** Character `k` of the packed text: seven consecutive bits, lowest first. */
  function Septet(ud: seq<Octet>, k: nat): nat
    requires 7 * k + 7 <= 8 * |ud|
  {
    BitValue(ud, 7 * k) + 2 * BitValue(ud, 7 * k + 1) + 4 * BitValue(ud, 7 * k + 2) + 8 * BitValue(ud, 7 * k + 3)
    + 16 * BitValue(ud, 7 * k + 4) + 32 * BitValue(ud, 7 * k + 5) + 64 * BitValue(ud, 7 * k + 6)
  }

  /** Every declared character reads the same before and after trimming. */
  lemma SeptetsReadTheSame(t: seq<Octet>, d: Declared, k: nat)
    requires 0 < d.start && d.End() <= |t| && d.alphabet == Alpha7Bit && k < d.udl
    ensures Septet(TrimTo(t, d)[d.start..], k) == Septet(t[d.start..], k)
  {
    hide BitAt, TrimTo;
    forall n: nat | 7 * k <= n < 7 * k + 7
      ensures BitValue(TrimTo(t, d)[d.start..], n) == BitValue(t[d.start..], n)
    {
      SeptetsKeptPaddingCleared(t, d, n);
    }
  }

  /** The extent is read from the header, so octets after it do not matter. */
  lemma ExtentIgnoresRest(t: seq<Octet>, u: seq<Octet>, alphabetOf: AlphabetOf)
    requires Extent(t, alphabetOf).Some?
    requires |u| >= Extent(t, alphabetOf).value.End()
    requires u[..Extent(t, alphabetOf).value.start] == t[..Extent(t, alphabetOf).value.start]
    ensures Extent(u, alphabetOf) == Extent(t, alphabetOf)
  {
    var d := Extent(t, alphabetOf).value;
    assert forall i :: 0 <= i < d.start ==> u[..d.start][i] == u[i] && t[..d.start][i] == t[i];
    assert UserDataStart(u) == d.start;
    assert u[0] == t[0] && u[d.start - 1] == t[d.start - 1] && u[d.start - 9] == t[d.start - 9];
  }

  lemma TrailingJunkIgnored(t: seq<Octet>, junk: seq<Octet>, alphabetOf: AlphabetOf)
    requires Trim(t, alphabetOf).1
    ensures Trim(t + junk, alphabetOf) == Trim(t, alphabetOf)
  {
    var d := Extent(t, alphabetOf).value;
    assert (t + junk)[..d.start] == t[..d.start];
    ExtentIgnoresRest(t, t + junk, alphabetOf);
    assert (t + junk)[..d.End()] == t[..d.End()];
  }

  /** Two deliveries with the same header and the same declared septets trim to the same octets. */
  lemma TrimIsCanonical(t: seq<Octet>, u: seq<Octet>, alphabetOf: AlphabetOf)
    requires Trim(t, alphabetOf).1 && Extent(t, alphabetOf).value.alphabet == Alpha7Bit
    requires |u| >= Extent(t, alphabetOf).value.End()
    requires
      var d := Extent(t, alphabetOf).value;
      && u[..d.start] == t[..d.start]
      && forall n: nat :: n < 7 * d.udl ==> (BitAt(u[d.start..], n) <==> BitAt(t[d.start..], n))
    ensures Trim(u, alphabetOf) == Trim(t, alphabetOf)
  {
    var d := Extent(t, alphabetOf).value;
    ExtentIgnoresRest(t, u, alphabetOf);
    var a, b := TrimTo(t, d), TrimTo(u, d);
    HeaderUntouched(t, d);
    HeaderUntouched(u, d);
    forall x | 0 <= x < d.End() ensures a[x] == b[x] {
      if x < d.start {
        assert a[..d.start][x] == b[..d.start][x];
      } else {
        OctetCanonical(t, u, d, x);
      }
    }
    assert a == b;
  }

  lemma OctetCanonical(t: seq<Octet>, u: seq<Octet>, d: Declared, x: nat)
    requires 0 < d.start && d.End() <= |t| && d.End() <= |u| && d.alphabet == Alpha7Bit
    requires d.start <= x < d.End()
    requires forall n: nat :: n < 7 * d.udl ==> (BitAt(u[d.start..], n) <==> BitAt(t[d.start..], n))
    ensures TrimTo(t, d)[x] == TrimTo(u, d)[x]
  {
    var a, b := TrimTo(t, d), TrimTo(u, d);
    hide HasBit, TrimTo, PaddingBits, Declared.Octets;
    var o := x - d.start;
    forall i: nat | i < 8 ensures HasBit(a[x], i) <==> HasBit(b[x], i) {
      var n := 8 * o + i;
      KeptBit(t, d, o, i);
      KeptBit(u, d, o, i);
      assert n / 8 == o && n % 8 == i;
      assert n < 7 * d.udl ==> (BitAt(u[d.start..], n) <==> BitAt(t[d.start..], n));
    }
    SameBits(a[x], b[x]);
  }

  lemma TrimIsIdempotent(t: seq<Octet>, alphabetOf: AlphabetOf)
    requires Trim(t, alphabetOf).1
    ensures Trim(Trim(t, alphabetOf).0, alphabetOf) == Trim(t, alphabetOf)
  {
    var d := Extent(t, alphabetOf).value;
    var u := TrimTo(t, d);
    HeaderUntouched(t, d);
    if d.alphabet == Alpha7Bit {
      forall n: nat | n < 7 * d.udl ensures BitAt(u[d.start..], n) <==> BitAt(t[d.start..], n) {
        SeptetsKeptPaddingCleared(t, d, n);
      }
      TrimIsCanonical(t, u, alphabetOf);
    } else {
      ExtentIgnoresRest(t, u, alphabetOf);
      assert u[..d.End()] == u;
    }
  }

  // ---------------------------------------------------------------- the layout, field by field

  /**
   An SMS-DELIVER TPDU: first octet, length of the originating address in digits, type of address, digits
   two to an octet, protocol identifier, data coding scheme, seven octets of timestamp, user data length, user data.
   */
  function Header(first: Octet, oaLength: Octet, toa: Octet, digits: seq<Octet>, pid: Octet, dcs: Octet, scts: seq<Octet>, udl: Octet): seq<Octet> {
    [first, oaLength, toa] + digits + [pid, dcs] + scts + [udl]
  }

  ghost predicate IsHeader(first: Octet, oaLength: Octet, digits: seq<Octet>, scts: seq<Octet>) {
    first & 0x03 == 0 && |digits| == (oaLength as int + 1) / 2 && |scts| == 7
  }

  /** The user data holds what its length declares: that many octets, or in the 7-bit alphabet that many septets. */
  ghost predicate HoldsDeclared(ud: seq<Octet>, alphabet: Alphabet, udl: nat) {
    if alphabet == Alpha7Bit then 8 * |ud| >= 7 * udl else |ud| >= udl
  }

  lemma HeaderFields(first: Octet, oaLength: Octet, toa: Octet, digits: seq<Octet>, pid: Octet, dcs: Octet, scts: seq<Octet>, udl: Octet, ud: seq<Octet>)
    requires |digits| == (oaLength as int + 1) / 2 && |scts| == 7
    ensures
      var t, start := Header(first, oaLength, toa, digits, pid, dcs, scts, udl) + ud, 13 + (oaLength as int + 1) / 2;
      && |t| == start + |ud| && t[0] == first && t[1] == oaLength && t[start - 9] == dcs && t[start - 1] == udl
      && t[..start] == Header(first, oaLength, toa, digits, pid, dcs, scts, udl) && t[start..] == ud
  {
    var h := Header(first, oaLength, toa, digits, pid, dcs, scts, udl);
    var start := 13 + (oaLength as int + 1) / 2;
    assert |h| == start && h[3 + |digits| + 1] == dcs && h[start - 1] == udl;
    var t := h + ud;
    assert t[..start] == h && t[start..] == ud;
  }

  /**
   The extent is found exactly in TPDUs of that layout: a deliver message, a data coding scheme with a known
   alphabet, and user data at least as long as declared. It starts right after the user data length.
   */
  lemma ExtentOfDeliver(
    first: Octet, oaLength: Octet, toa: Octet, digits: seq<Octet>, pid: Octet, dcs: Octet, scts: seq<Octet>, udl: Octet,
    ud: seq<Octet>, alphabetOf: AlphabetOf)
    requires |digits| == (oaLength as int + 1) / 2 && |scts| == 7
    ensures
      var t := Header(first, oaLength, toa, digits, pid, dcs, scts, udl) + ud;
      Extent(t, alphabetOf) ==
      if first & 0x03 == 0 && alphabetOf(dcs).Some? && HoldsDeclared(ud, alphabetOf(dcs).value, udl as int)
      then Some(Declared(13 + (oaLength as int + 1) / 2, alphabetOf(dcs).value, udl as int))
      else None
  {
    hide Header, HoldsDeclared, Declared.Octets;
    HeaderFields(first, oaLength, toa, digits, pid, dcs, scts, udl, ud);
    var t := Header(first, oaLength, toa, digits, pid, dcs, scts, udl) + ud;
    var start := 13 + (oaLength as int + 1) / 2;
    assert UserDataStart(t) == start;
    if alphabetOf(dcs).Some? {
      DeclaredFits(Declared(start, alphabetOf(dcs).value, udl as int), ud);
    }
  }

  lemma DeclaredFits(d: Declared, ud: seq<Octet>)
    ensures d.Octets() <= |ud| <==> HoldsDeclared(ud, d.alphabet, d.udl)
  {
  }

  lemma SplitAtFields(t: seq<Octet>, n: nat)
    requires |t| >= 13 + n
    ensures t == Header(t[0], t[1], t[2], t[3..3 + n], t[3 + n], t[4 + n], t[5 + n..12 + n], t[12 + n]) + t[13 + n..]
  {
    assert t[..13 + n] == Header(t[0], t[1], t[2], t[3..3 + n], t[3 + n], t[4 + n], t[5 + n..12 + n], t[12 + n]);
  }

  lemma ExtentReadsFields(t: seq<Octet>, alphabetOf: AlphabetOf)
    requires Extent(t, alphabetOf).Some?
    ensures |t| >= 3 && t[0] & 0x03 == 0
    ensures
      var d, n := Extent(t, alphabetOf).value, (t[1] as int + 1) / 2;
      d.start == 13 + n <= |t| && d.udl == t[12 + n] as int && alphabetOf(t[4 + n]) == Some(d.alphabet) && d.Octets() <= |t| - d.start
  {
    hide Declared.Octets;
  }

  lemma ExtentMeansDeliver(t: seq<Octet>, alphabetOf: AlphabetOf)
    returns (toa: Octet, digits: seq<Octet>, pid: Octet, dcs: Octet, scts: seq<Octet>, udl: Octet, ud: seq<Octet>)
    requires Extent(t, alphabetOf).Some?
    ensures |t| >= 13 && IsHeader(t[0], t[1], digits, scts)
    ensures
      var d := Extent(t, alphabetOf).value;
      && d.udl == udl as int && t == Header(t[0], t[1], toa, digits, pid, dcs, scts, udl) + ud
      && alphabetOf(dcs) == Some(d.alphabet) && HoldsDeclared(ud, d.alphabet, d.udl)
  {
    hide Extent, HoldsDeclared, Declared.Octets, Header;
    ExtentReadsFields(t, alphabetOf);
    var n := (t[1] as int + 1) / 2;
    toa, digits, pid, dcs, udl := t[2], t[3..3 + n], t[3 + n], t[4 + n], t[12 + n];
    scts, ud := t[5 + n..12 + n], t[13 + n..];
    SplitAtFields(t, n);
    DeclaredFits(Extent(t, alphabetOf).value, ud);
  }

  /** What trimming leaves of such a TPDU: the header, and as few octets of user data as hold what is declared. */
  lemma TrimOfDeliver(
    first: Octet, oaLength: Octet, toa: Octet, digits: seq<Octet>, pid: Octet, dcs: Octet, scts: seq<Octet>, udl: Octet,
    ud: seq<Octet>, alphabetOf: AlphabetOf)
    requires IsHeader(first, oaLength, digits, scts) && alphabetOf(dcs).Some?
    requires HoldsDeclared(ud, alphabetOf(dcs).value, udl as int)
    ensures
      var h := Header(first, oaLength, toa, digits, pid, dcs, scts, udl);
      var (r, trimmed) := Trim(h + ud, alphabetOf);
      && trimmed && |r| >= |h| && r[..|h|] == h
      && if alphabetOf(dcs).value == Alpha7Bit then
           && 7 * udl as int <= 8 * (|r| - |h|) < 7 * udl as int + 8
           && forall k: nat :: k < udl as int ==> 7 * k + 7 <= 8 * |ud| && Septet(r[|h|..], k) == Septet(ud, k)
         else r == h + ud[..udl as int]
  {
    var h := Header(first, oaLength, toa, digits, pid, dcs, scts, udl);
    ExtentOfDeliver(first, oaLength, toa, digits, pid, dcs, scts, udl, ud, alphabetOf);
    HeaderFields(first, oaLength, toa, digits, pid, dcs, scts, udl, ud);
    hide Header, Extent, Septet;
    var t := h + ud;
    var d := Extent(t, alphabetOf).value;
    HeaderUntouched(t, d);
    if d.alphabet == Alpha7Bit {
      forall k: nat | k < udl as int ensures 7 * k + 7 <= 8 * |ud| && Septet(TrimTo(t, d)[|h|..], k) == Septet(ud, k) {
        SeptetsReadTheSame(t, d, k);
      }
    } else {
      assert t[..d.End()] == h + ud[..udl as int];
    }
  }
}
