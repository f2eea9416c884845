/** Byte strings and the little-endian integer readers of the LVB format. */
module Bytes {

  type byte = x: int | 0 <= x < 0x100
  type bytes = seq<byte>

  const TWO_16: nat := 0x1_0000
  const TWO_32: nat := 0x1_0000_0000
  const TWO_64: nat := 0x1_0000_0000_0000_0000

  function Min(a: nat, b: nat): nat { if a <= b then a else b }

  /** Python's `s[lo:hi]` for non-negative bounds: both ends are clamped to the
      length, and an empty range gives the empty string. */
  function Slice(s: bytes, lo: nat, hi: nat): (r: bytes)
    ensures |r| == if hi <= lo || |s| <= lo then 0 else Min(hi, |s|) - lo
    ensures forall k :: 0 <= k < |r| ==> r[k] == s[lo + k]
  {
    if |s| <= lo || hi <= lo then [] else s[lo .. Min(hi, |s|)]
  }

  /** `u16`: the unsigned 16-bit little-endian value at the start of `s`. */
  function U16(s: bytes): (v: nat)
    requires |s| >= 2
    ensures v < TWO_16
  {
    s[0] as nat + 0x100 * (s[1] as nat)
  }

  /** `u32`: the unsigned 32-bit little-endian value at the start of `s`. */
  function U32(s: bytes): (v: nat)
    requires |s| >= 4
    ensures v < TWO_32
  {
    U16(s) + TWO_16 * U16(s[2..])
  }

  /** `u64`: the unsigned 64-bit little-endian value at the start of `s`. */
  function U64(s: bytes): (v: nat)
    requires |s| >= 8
    ensures v < TWO_64
  {
    U32(s) + TWO_32 * U32(s[4..])
  }

  /** The little-endian encodings the readers invert. */
  function LE16(v: nat): (s: bytes)
    requires v < TWO_16
    ensures |s| == 2
  {
    [v % 0x100, v / 0x100]
  }

  function LE32(v: nat): (s: bytes)
    requires v < TWO_32
    ensures |s| == 4
  {
    LE16(v % TWO_16) + LE16(v / TWO_16)
  }

  function LE64(v: nat): (s: bytes)
    requires v < TWO_64
    ensures |s| == 8
  {
    LE32(v % TWO_32) + LE32(v / TWO_32)
  }

  lemma U16Inverse(v: nat, rest: bytes)
    requires v < TWO_16
    ensures U16(LE16(v) + rest) == v
  {
  }

  lemma LE16Inverse(s: bytes)
    requires |s| >= 2
    ensures LE16(U16(s)) == s[..2]
  {
  }

  /** Reading a 32-bit value back from its encoding, whatever follows it. */
  lemma U32Inverse(v: nat, rest: bytes)
    requires v < TWO_32
    ensures U32(LE32(v) + rest) == v
  {
    var lo, hi := v % TWO_16, v / TWO_16;
    var s := LE32(v) + rest;
    assert s == LE16(lo) + (LE16(hi) + rest);
    U16Inverse(lo, LE16(hi) + rest);
    assert s[2..] == LE16(hi) + rest;
    U16Inverse(hi, rest);
  }

  /** Encoding a read 32-bit value gives back the four bytes it came from. */
  lemma LE32Inverse(s: bytes)
    requires |s| >= 4
    ensures LE32(U32(s)) == s[..4]
  {
    var lo, hi := U16(s), U16(s[2..]);
    assert U32(s) % TWO_16 == lo && U32(s) / TWO_16 == hi;
    LE16Inverse(s);
    LE16Inverse(s[2..]);
  }

  lemma U64Inverse(v: nat, rest: bytes)
    requires v < TWO_64
    ensures U64(LE64(v) + rest) == v
  {
    var lo, hi := v % TWO_32, v / TWO_32;
    var s := LE64(v) + rest;
    assert s == LE32(lo) + (LE32(hi) + rest);
    U32Inverse(lo, LE32(hi) + rest);
    assert s[4..] == LE32(hi) + rest;
    U32Inverse(hi, rest);
  }

  lemma LE64Inverse(s: bytes)
    requires |s| >= 8
    ensures LE64(U64(s)) == s[..8]
  {
    var lo, hi := U32(s), U32(s[4..]);
    assert U64(s) % TWO_32 == lo && U64(s) / TWO_32 == hi;
    LE32Inverse(s);
    LE32Inverse(s[4..]);
  }

  /** A reader only looks at its first bytes: appending anything leaves the value alone. */
  lemma U32Prefix(s: bytes, extra: bytes)
    requires |s| >= 4
    ensures U32(s + extra) == U32(s)
  {
    assert (s + extra)[2..] == s[2..] + extra;
  }

  lemma U16Prefix(s: bytes, extra: bytes)
    requires |s| >= 2
    ensures U16(s + extra) == U16(s)
  {
  }
}
