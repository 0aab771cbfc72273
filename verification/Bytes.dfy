/** Octets, little-endian 16-bit fields and the two outcome types shared by the wire modules. */
module Bytes {

  type Byte = x: int | 0 <= x < 0x100
  type U16 = x: int | 0 <= x < 0x1_0000
  type Octets = seq<Byte>

  datatype Option<+T> = None | Some(value: T)

  datatype Result<+T, +E> = Ok(value: T) | Err(error: E)

  /** `binary.LittleEndian.PutUint16(buf, uint16(v))`: the conversion drops multiples of 65536. */
  function Le16(v: nat): (r: Octets)
    ensures |r| == 2
  {
    if v >= 0x1_0000 then Le16(v - 0x1_0000) else [v % 0x100, v / 0x100]
  }

  function FromLe16(lo: Byte, hi: Byte): U16 {
    lo + 0x100 * hi
  }

  lemma {:induction false} Le16Keeps(v: nat) returns (q: nat)
    ensures v == 0x1_0000 * q + FromLe16(Le16(v)[0], Le16(v)[1])
  {
    if v < 0x1_0000 {
      q := 0;
    } else {
      q := Le16Keeps(v - 0x1_0000);
      hide FromLe16;
      assert Le16(v) == Le16(v - 0x1_0000);
      q := q + 1;
    }
  }

  lemma FromLe16OfLe16(v: nat)
    ensures FromLe16(Le16(v)[0], Le16(v)[1]) == v % 0x1_0000
  {
    hide Le16, FromLe16;
    var q := Le16Keeps(v);
  }

  lemma Le16OfFromLe16(lo: Byte, hi: Byte)
    ensures Le16(FromLe16(lo, hi)) == [lo, hi]
  {
    assert (lo + 0x100 * hi) % 0x100 == lo && (lo + 0x100 * hi) / 0x100 == hi;
  }

  function Zeros(n: nat): (r: Octets)
    ensures |r| == n
    ensures forall i :: 0 <= i < n ==> r[i] == 0
  {
    seq(n, i => 0)
  }
}
