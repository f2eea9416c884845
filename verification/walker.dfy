/** The file header of an LVB container and the walk over its sections. */
module Walker {
  import opened Bytes
  import opened Outcomes
  import opened Payloads
  import opened Sections

  const LVLB: bytes := [0x4C, 0x56, 0x4C, 0x42]
  const FILE_HEADER_SIZE: nat := 32

  datatype Header = Header(fileSize: nat, version: nat)

  /** The header reads of `Lvb.__init__`: the signature assertion on bytes 0..3,
      then file size@4, version@8 and the unused hash@12, each of which fails
      when the data ends before it. */
  function ParseHeader(data: bytes): (r: Result<Header>)
    ensures r.Ok? <==> |data| >= 16 && data[..4] == LVLB
    ensures r == Err(BadSignature) <==> !(|data| >= 4 && data[..4] == LVLB)
    ensures r.Ok? ==> r.value.fileSize < TWO_32 && r.value.version < TWO_32
  {
    if |data| < 4 || data[..4] != LVLB then Err(BadSignature)
    else if |data| < 16 then Err(Truncated)
    else Ok(Header(U32(data[4..]), U32(data[8..])))
  }

  /** `xc3`: the modern layouts are used from format version 5 on. */
  predicate IsModern(version: nat) {
    version >= 5
  }

  /** The first 16 bytes of a file header (bytes 16..31 are reserved and never read). */
  function EncodeHeader(fileSize: nat, version: nat, hash: nat): (s: bytes)
    requires fileSize < TWO_32 && version < TWO_32 && hash < TWO_32
    ensures |s| == 16
  {
    LVLB + LE32(fileSize) + LE32(version) + LE32(hash)
  }

  /** A written header reads back, whatever hash and payload follow it. */
  lemma HeaderRoundTrip(fileSize: nat, version: nat, hash: nat, rest: bytes)
    requires fileSize < TWO_32 && version < TWO_32 && hash < TWO_32
    ensures ParseHeader(EncodeHeader(fileSize, version, hash) + rest) == Ok(Header(fileSize, version))
  {
    var s := EncodeHeader(fileSize, version, hash) + rest;
    assert s[..4] == LVLB;
    assert s[4..] == LE32(fileSize) + s[8..];
    U32Inverse(fileSize, s[8..]);
    assert s[8..] == LE32(version) + s[12..];
    U32Inverse(version, s[12..]);
  }

  /** `Section(data, xc3, start)` for a fixed body and format, as a function of
      the section's offset. */
  function SectionDecoder(body: bytes, xc3: bool, ext: ExtLookup): nat -> Result<Section> {
    (start: nat) => DecodeSection(body, xc3, ext, start)
  }

  /** The walk loop from offset `start` of the header-less body: decode a section,
      advance by its declared size, stop at the first offset not below `limit`
      (`file_size - 32`). A section of size 0 would never advance the offset. */
  function Walk(decode: nat -> Result<Section>, limit: int, start: nat): Result<seq<Section>>
    decreases limit - start
  {
    if start >= limit then Ok([])
    else
      var sec :- decode(start);
      if sec.size == 0 then Err(StalledWalk(start))
      else
        var rest :- Walk(decode, limit, start + sec.size);
        Ok([sec] + rest)
  }

  function Prepend(prefix: seq<Section>, r: Result<seq<Section>>): Result<seq<Section>> {
    match r
    case Ok(rest) => Ok(prefix + rest)
    case Err(e) => Err(e)
  }

  lemma PrependEmpty(r: Result<seq<Section>>)
    ensures Prepend([], r) == r
  {
    if r.Ok? {
      assert [] + r.value == r.value;
    }
  }

  lemma PrependAssoc(a: seq<Section>, b: seq<Section>, r: Result<seq<Section>>)
    ensures Prepend(a, Prepend(b, r)) == Prepend(a + b, r)
  {
    if r.Ok? {
      assert a + (b + r.value) == (a + b) + r.value;
    }
  }

  /** The `while start < file_size - 32` loop of `Lvb.__init__`, appending each
      decoded section in turn. */
  method WalkSections(decode: nat -> Result<Section>, limit: int) returns (r: Result<seq<Section>>)
    ensures r == Walk(decode, limit, 0)
  {
    var sections: seq<Section> := [];
    var start: nat := 0;
    PrependEmpty(Walk(decode, limit, 0));
    while start < limit
      invariant Walk(decode, limit, 0) == Prepend(sections, Walk(decode, limit, start))
      decreases limit - start
    {
      var section := decode(start);
      if section.Err? {
        return Err(section.error);
      }
      if section.value.size == 0 {
        return Err(StalledWalk(start));
      }
      WalkStep(decode, limit, start);
      PrependAssoc(sections, [section.value], Walk(decode, limit, start + section.value.size));
      sections := sections + [section.value];
      start := start + section.value.size;
    }
    assert sections + [] == sections;
    return Ok(sections);
  }

  /** One turn of the walk: a section decoded at `start` with a non-zero size is
      followed by the walk from `start` plus that size. */
  lemma {:induction false} WalkStep(decode: nat -> Result<Section>, limit: int, start: nat)
    requires start < limit
    requires decode(start).Ok? && decode(start).value.size > 0
    ensures Walk(decode, limit, start)
            == Prepend([decode(start).value], Walk(decode, limit, start + decode(start).value.size))
  {
    var sec := decode(start).value;
    match Walk(decode, limit, start + sec.size) {
      case Ok(rest) => assert Walk(decode, limit, start) == Ok([sec] + rest);
      case Err(e) => assert Walk(decode, limit, start) == Err(e);
    }
  }

  /** A successful walk that yields a section starts with a section of positive
      size decoded at `start`, below `limit`, followed by the walk after it. */
  lemma WalkHead(decode: nat -> Result<Section>, limit: int, start: nat, secs: seq<Section>)
    requires Walk(decode, limit, start) == Ok(secs) && secs != []
    ensures start < limit && decode(start) == Ok(secs[0]) && secs[0].size > 0
    ensures Walk(decode, limit, start + secs[0].size) == Ok(secs[1..])
  {
    var sec := decode(start).value;
    var rest := Walk(decode, limit, start + sec.size).value;
    assert secs == [sec] + rest;
  }

  /** The sum of the declared sizes of `secs`. */
  function SizeSum(secs: seq<Section>): nat {
    if secs == [] then 0 else secs[0].size + SizeSum(secs[1..])
  }

  /** Section `k` of `secs` is the one decoded at `start` plus the sizes of the
      sections before it, that offset is below `limit`, and its size is positive. */
  predicate LaidOutAt(decode: nat -> Result<Section>, limit: int, start: nat, secs: seq<Section>, k: nat)
    requires k < |secs|
  {
    && start + SizeSum(secs[..k]) < limit
    && decode(start + SizeSum(secs[..k])) == Ok(secs[k])
    && secs[k].size > 0
  }

  /** The sections come in file order: every section is laid out at the sum of
      the sizes before it, and the offset after the last one is not below `limit`. */
  lemma WalkLayout(decode: nat -> Result<Section>, limit: int, start: nat, secs: seq<Section>)
    requires Walk(decode, limit, start) == Ok(secs)
    ensures forall k :: 0 <= k < |secs| ==> LaidOutAt(decode, limit, start, secs, k)
    ensures start + SizeSum(secs) >= limit
  {
    forall k | 0 <= k < |secs|
      ensures LaidOutAt(decode, limit, start, secs, k)
    {
      WalkAt(decode, limit, start, secs, k);
    }
    WalkEnd(decode, limit, start, secs);
  }

  /** Section `k` of a walk is decoded at `start` plus the sizes before it. */
  lemma {:induction false} WalkAt(decode: nat -> Result<Section>, limit: int, start: nat, secs: seq<Section>, k: nat)
    requires Walk(decode, limit, start) == Ok(secs) && k < |secs|
    ensures LaidOutAt(decode, limit, start, secs, k)
    decreases k
  {
    WalkHead(decode, limit, start, secs);
    if k == 0 {
      assert secs[..0] == [];
    } else {
      WalkAt(decode, limit, start + secs[0].size, secs[1..], k - 1);
      LayoutShift(decode, limit, start, secs, k);
    }
  }

  /** A walk ends at or past `limit`. */
  lemma {:induction false} WalkEnd(decode: nat -> Result<Section>, limit: int, start: nat, secs: seq<Section>)
    requires Walk(decode, limit, start) == Ok(secs)
    ensures start + SizeSum(secs) >= limit
    decreases |secs|
  {
    if secs != [] {
      WalkHead(decode, limit, start, secs);
      WalkEnd(decode, limit, start + secs[0].size, secs[1..]);
    }
  }

  /** Section `k` of the walk from `start` is section `k - 1` of the walk from
      the offset after the first section. */
  lemma LayoutShift(decode: nat -> Result<Section>, limit: int, start: nat, secs: seq<Section>, k: nat)
    requires 0 < k < |secs|
    requires LaidOutAt(decode, limit, start + secs[0].size, secs[1..], k - 1)
    ensures LaidOutAt(decode, limit, start, secs, k)
  {
    SizeSumPrefix(secs, k);
    assert secs[1..][k - 1] == secs[k];
  }

  lemma SizeSumPrefix(secs: seq<Section>, k: nat)
    requires 0 < k <= |secs|
    ensures SizeSum(secs[..k]) == secs[0].size + SizeSum(secs[1..][..k - 1])
  {
    assert secs[..k][1..] == secs[1..][..k - 1];
  }

  /** Every section the walk over a body yields is well decoded. */
  lemma WalkWellDecoded(body: bytes, limit: int, xc3: bool, ext: ExtLookup, secs: seq<Section>)
    requires Walk(SectionDecoder(body, xc3, ext), limit, 0) == Ok(secs)
    ensures forall k :: 0 <= k < |secs| ==> WellDecoded(secs[k], xc3, ext) && secs[k].size > 0
  {
    var decode := SectionDecoder(body, xc3, ext);
    forall k | 0 <= k < |secs|
      ensures WellDecoded(secs[k], xc3, ext) && secs[k].size > 0
    {
      WalkAt(decode, limit, 0, secs, k);
      var at := SizeSum(secs[..k]);
      assert decode(at) == DecodeSection(body, xc3, ext, at);
      SectionWellDecoded(body, xc3, ext, at);
    }
  }
}
