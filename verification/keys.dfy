/** Lookup keys of the gimmick indices, and the query-string parser
    `name_or_bdat_hash`. Text is handled as its UTF-8 bytes. */
module Keys {
  import opened Bytes

  /** A gimmick-index key: a 32-bit hash or bdat id (modern format), or a
      string-table name (legacy format). */
  datatype Key = HashKey(hash: nat) | NameKey(name: bytes)

  const LT: byte := 0x3C       // '<'
  const GT: byte := 0x3E       // '>'
  const NEWLINE: byte := 0x0A  // '\n'

  /** `[0-9A-F]`: decimal digits and upper-case hex letters only. */
  predicate IsHexDigit(c: byte) {
    (0x30 <= c <= 0x39) || (0x41 <= c <= 0x46)
  }

  function DigitValue(c: byte): (d: nat)
    requires IsHexDigit(c)
    ensures d < 16
  {
    if c <= 0x39 then c - 0x30 else c - 0x41 + 10
  }

  function HexChar(d: nat): (c: byte)
    requires d < 16
    ensures IsHexDigit(c) && DigitValue(c) == d
  {
    if d < 10 then 0x30 + d else 0x41 + (d - 10)
  }

  function Pow16(w: nat): (p: nat)
    ensures p > 0
  {
    if w == 0 then 1 else 16 * Pow16(w - 1)
  }

  /** `int(digits, base=16)`, most significant digit first. */
  function ParseHex(ds: bytes): nat
    requires forall k :: 0 <= k < |ds| ==> IsHexDigit(ds[k])
  {
    if ds == [] then 0 else 16 * ParseHex(ds[..|ds| - 1]) + DigitValue(ds[|ds| - 1])
  }

  /** `{n:0wX}`: `n` as exactly `w` upper-case hex digits. */
  function HexDigits(n: nat, w: nat): (ds: bytes)
    ensures |ds| == w
    ensures forall k :: 0 <= k < |ds| ==> IsHexDigit(ds[k])
  {
    if w == 0 then [] else HexDigits(n / 16, w - 1) + [HexChar(n % 16)]
  }

  lemma {:induction false} ParseHexDigits(n: nat, w: nat)
    requires n < Pow16(w)
    ensures ParseHex(HexDigits(n, w)) == n
  {
    if w > 0 {
      var ds := HexDigits(n, w);
      assert ds[..|ds| - 1] == HexDigits(n / 16, w - 1);
      ParseHexDigits(n / 16, w - 1);
    }
  }

  lemma {:induction false} HexDigitsParse(ds: bytes)
    requires forall k :: 0 <= k < |ds| ==> IsHexDigit(ds[k])
    ensures ParseHex(ds) < Pow16(|ds|)
    ensures HexDigits(ParseHex(ds), |ds|) == ds
  {
    if ds != [] {
      var init, d := ds[..|ds| - 1], DigitValue(ds[|ds| - 1]);
      HexDigitsParse(init);
      var n := ParseHex(ds);
      assert n == 16 * ParseHex(init) + d;
      assert n / 16 == ParseHex(init) && n % 16 == d;
      assert ds == init + [ds[|ds| - 1]];
    }
  }

  /** The text `hash_matcher` accepts: `<`, eight hex digits, `>`; Python's `$`
      also matches just before one final newline. */
  predicate IsHashToken(s: bytes) {
    && (|s| == 10 || (|s| == 11 && s[10] == NEWLINE))
    && s[0] == LT && s[9] == GT
    && forall k :: 1 <= k < 9 ==> IsHexDigit(s[k])
  }

  /** `f"<{n:08X}>"`, the form the matcher parses. */
  function HashToken(n: nat): (s: bytes)
    requires n < TWO_32
    ensures |s| == 10
  {
    [LT] + HexDigits(n, 8) + [GT]
  }

  /** `name_or_bdat_hash`: a hash token becomes its numeric key, any other text
      stays a name. */
  function NameOrBdatHash(s: bytes): (k: Key)
    ensures k.HashKey? <==> IsHashToken(s)
    ensures k.NameKey? ==> k.name == s
    ensures k.HashKey? ==> k.hash < TWO_32 && HashToken(k.hash) == s[..10]
  {
    if IsHashToken(s) then
      var digits := s[1..9];
      HexDigitsParse(digits);
      assert Pow16(8) == TWO_32;
      assert s[..10] == [LT] + digits + [GT];
      HashKey(ParseHex(digits))
    else
      NameKey(s)
  }

  /** Every 32-bit id written as a hash token reads back as itself. */
  lemma HashTokenRoundTrip(n: nat)
    requires n < TWO_32
    ensures NameOrBdatHash(HashToken(n)) == HashKey(n)
  {
    var s := HashToken(n);
    assert s[1..9] == HexDigits(n, 8);
    assert Pow16(8) == TWO_32;
    ParseHexDigits(n, 8);
  }
}
