/** The section magics, the mapper registry and the fixed-layout payload
    decoders (`Info`, `InfoLegacy`, `Xform`, `Debug`, `Strings`, `Default`). */
module Payloads {
  import opened Bytes
  import opened Outcomes

  const INFO: bytes := [0x49, 0x4E, 0x46, 0x4F]
  const XFRM: bytes := [0x58, 0x46, 0x52, 0x4D]
  const DEBI: bytes := [0x44, 0x45, 0x42, 0x49]
  const STRG: bytes := [0x53, 0x54, 0x52, 0x47]

  /** `SPECIAL_MAGIC`: the sections the resolver consumes instead of indexing. */
  predicate IsSpecial(magic: bytes) {
    magic == INFO || magic == XFRM || magic == DEBI || magic == STRG
  }

  /** The decoder chosen for a section. `ExtKind` is a decoder supplied by an
      extension module, named by a tag. */
  datatype Kind =
    | InfoKind | InfoLegacyKind | XformKind | DebugKind | StringsKind | DefaultKind
    | ExtKind(tag: nat)

  /** `get_ext_mapper`: the extension decoder for a magic and format flag, if any. */
  type ExtLookup = (bytes, bool) -> Option<nat>

  /** `mapper_registry`: built-in magics first, then the extension lookup, then
      the raw `Default` decoder. */
  function Registry(magic: bytes, xc3: bool, ext: ExtLookup): (k: Kind)
    ensures k == InfoKind <==> magic == INFO && xc3
    ensures k == InfoLegacyKind <==> magic == INFO && !xc3
    ensures k == XformKind <==> magic == XFRM
    ensures k == DebugKind <==> magic == DEBI
    ensures k == StringsKind <==> magic == STRG
    ensures k.ExtKind? <==> !IsSpecial(magic) && ext(magic, xc3).Some?
    ensures k.ExtKind? ==> ext(magic, xc3) == Some(k.tag)
    ensures k == DefaultKind <==> !IsSpecial(magic) && ext(magic, xc3).None?
  {
    if magic == INFO then (if xc3 then InfoKind else InfoLegacyKind)
    else if magic == XFRM then XformKind
    else if magic == DEBI then DebugKind
    else if magic == STRG then StringsKind
    else match ext(magic, xc3)
      case Some(tag) => ExtKind(tag)
      case None => DefaultKind
  }

  /** An INFO record: the modern layout (`Info`) or the legacy one (`InfoLegacy`). */
  datatype InfoRecord =
    | Info(bdatId: nat, xfrmIdx: nat, shape: nat, sequentialId: nat, hashId: nat)
    | InfoLegacy(nameId: nat, xfrmIdx: nat, shape: nat)

  /** A transform: the sixteen 32-bit words of its 4x4 single-precision matrix. */
  datatype Xform = Xform(words: seq<nat>)

  datatype DebugRecord = Debug(gimmickId: nat, typeId: nat, stringId: nat, parentId: nat)

  /** A string blob, read by offset as zero-terminated strings. */
  datatype Strings = Strings(buf: bytes) {

    /** `Strings.read`: the bytes from `offset` up to, not including, the first
        zero byte at or after it; `None` when there is no such zero byte. */
    function Read(offset: nat): (r: Option<bytes>)
      ensures r.Some? ==> && offset + |r.value| < |buf|
                          && buf[offset .. offset + |r.value|] == r.value
                          && buf[offset + |r.value|] == 0
                          && 0 !in r.value
      ensures r.None? <==> forall k :: offset <= k < |buf| ==> buf[k] != 0
    {
      var data := Slice(buf, offset, |buf|);
      match ZeroIndex(data)
      case None => None
      case Some(n) => Some(data[..n])
    }
  }

  /** `bytes.index(0)`: the position of the first zero byte. */
  function ZeroIndex(s: bytes): (r: Option<nat>)
    ensures r.Some? ==> r.value < |s| && s[r.value] == 0 && 0 !in s[..r.value]
    ensures r.None? ==> 0 !in s
  {
    if s == [] then None
    else if s[0] == 0 then Some(0)
    else match ZeroIndex(s[1..])
      case None => None
      case Some(n) =>
        assert s[..n + 1] == [s[0]] + s[1..][..n];
        Some(n + 1)
  }

  /** A zero-terminated string written at an offset of a blob reads back intact. */
  lemma ReadAfterWrite(before: bytes, text: bytes, after: bytes)
    requires 0 !in text
    ensures Strings(before + text + [0] + after).Read(|before|) == Some(text)
  {
    var buf := before + text + [0] + after;
    var off := |before|;
    assert buf[off + |text|] == 0;
    var r := Strings(buf).Read(off);
    assert r.Some?;
    var t := r.value;
    assert t == buf[off .. off + |text|] == text;
  }

  /** A decoded payload: one variant per decoder. */
  datatype Payload =
    | InfoPayload(info: InfoRecord)
    | XformPayload(xform: Xform)
    | DebugPayload(debug: DebugRecord)
    | StringsPayload(strings: Strings)
    | DefaultPayload(data: bytes)
    | ExtPayload(tag: nat, data: bytes)

  /** The fewest bytes an entry needs for its decoder not to run out. */
  function MinLength(kind: Kind): nat {
    match kind
    case InfoKind => 16
    case InfoLegacyKind => 16
    case XformKind => 64
    case DebugKind => 16
    case _ => 0
  }

  /** Which payload variant a decoder kind yields. */
  predicate Produces(kind: Kind, p: Payload) {
    match kind
    case InfoKind => p.InfoPayload? && p.info.Info?
    case InfoLegacyKind => p.InfoPayload? && p.info.InfoLegacy?
    case XformKind => p.XformPayload? && |p.xform.words| == 16
    case DebugKind => p.DebugPayload?
    case StringsKind => p.StringsPayload?
    case DefaultKind => p.DefaultPayload?
    case ExtKind(tag) => p.ExtPayload? && p.tag == tag
  }

  /** `Info.__init__`: id@0, transform index@4, shape@8 (u16), sequential id@10
      (u16), hash id@12. */
  function DecodeInfo(entry: bytes): (r: Result<InfoRecord>)
    ensures r.Ok? <==> |entry| >= 16
    ensures r.Ok? ==> r.value.Info?
  {
    if |entry| < 16 then Err(Truncated)
    else Ok(Info(U32(entry), U32(entry[4..]), U16(entry[8..]), U16(entry[10..]), U32(entry[12..])))
  }

  /** `InfoLegacy.__init__`: name id@0, transform index@8, shape@12 (bytes 4..7 unused). */
  function DecodeInfoLegacy(entry: bytes): (r: Result<InfoRecord>)
    ensures r.Ok? <==> |entry| >= 16
    ensures r.Ok? ==> r.value.InfoLegacy?
  {
    if |entry| < 16 then Err(Truncated)
    else Ok(InfoLegacy(U32(entry), U32(entry[8..]), U32(entry[12..])))
  }

  /** `Debug.__init__`: gimmick id@0, type id@4, string offset@8, parent id@12. */
  function DecodeDebug(entry: bytes): (r: Result<DebugRecord>)
    ensures r.Ok? <==> |entry| >= 16
  {
    if |entry| < 16 then Err(Truncated)
    else Ok(Debug(U32(entry), U32(entry[4..]), U32(entry[8..]), U32(entry[12..])))
  }

  /** The first `n` 32-bit words of `s`. */
  function Words(s: bytes, n: nat): (ws: seq<nat>)
    requires |s| >= 4 * n
    ensures |ws| == n
  {
    if n == 0 then [] else [U32(s)] + Words(s[4..], n - 1)
  }

  /** `Xform.__init__`: sixteen 4-byte words at offsets 0, 4, ..., 60. */
  function DecodeXform(entry: bytes): (r: Result<Xform>)
    ensures r.Ok? <==> |entry| >= 64
    ensures r.Ok? ==> |r.value.words| == 16
  {
    if |entry| < 64 then Err(Truncated) else Ok(Xform(Words(entry, 16)))
  }

  /** `mapper(entry)`: the registry's decoder applied to one entry's bytes. An
      extension decoder is not part of this model; its payload keeps the bytes. */
  function DecodePayload(kind: Kind, entry: bytes): (r: Result<Payload>)
    ensures r.Ok? <==> |entry| >= MinLength(kind)
    ensures r.Ok? ==> Produces(kind, r.value)
  {
    match kind
    case InfoKind => var i :- DecodeInfo(entry); Ok(InfoPayload(i))
    case InfoLegacyKind => var i :- DecodeInfoLegacy(entry); Ok(InfoPayload(i))
    case XformKind => var x :- DecodeXform(entry); Ok(XformPayload(x))
    case DebugKind => var d :- DecodeDebug(entry); Ok(DebugPayload(d))
    case StringsKind => Ok(StringsPayload(Strings(entry)))
    case DefaultKind => Ok(DefaultPayload(entry))
    case ExtKind(tag) => Ok(ExtPayload(tag, entry))
  }

  // ---- Encoders: the layouts written out, and the decoders proved to invert them.

  predicate Fits32(v: nat) { v < TWO_32 }

  predicate EncodableInfo(r: InfoRecord) {
    match r
    case Info(b, x, s, q, h) => Fits32(b) && Fits32(x) && s < TWO_16 && q < TWO_16 && Fits32(h)
    case InfoLegacy(n, x, s) => Fits32(n) && Fits32(x) && Fits32(s)
  }

  /** The 16 bytes of an INFO record; the legacy layout zero-fills bytes 4..7. */
  function EncodeInfo(r: InfoRecord): (s: bytes)
    requires EncodableInfo(r)
    ensures |s| == 16
  {
    match r
    case Info(b, x, s, q, h) => LE32(b) + LE32(x) + LE16(s) + LE16(q) + LE32(h)
    case InfoLegacy(n, x, s) => LE32(n) + [0, 0, 0, 0] + LE32(x) + LE32(s)
  }

  lemma InfoRoundTrip(r: InfoRecord, rest: bytes)
    requires r.Info? && EncodableInfo(r)
    ensures DecodeInfo(EncodeInfo(r) + rest) == Ok(r)
  {
    var t12 := LE32(r.hashId) + rest;
    var t10 := LE16(r.sequentialId) + t12;
    var t8 := LE16(r.shape) + t10;
    var t4 := LE32(r.xfrmIdx) + t8;
    var s := LE32(r.bdatId) + t4;
    assert EncodeInfo(r) + rest == s;
    assert s[4..] == t4 && s[8..] == t8 && s[10..] == t10 && s[12..] == t12;
    U32Inverse(r.bdatId, t4);
    U32Inverse(r.xfrmIdx, t8);
    U16Inverse(r.shape, t10);
    U16Inverse(r.sequentialId, t12);
    U32Inverse(r.hashId, rest);
  }

  /** The legacy layout reads back whatever bytes 4..7 and the bytes after the
      record hold; `EncodeInfo` is the case of a zero pad. */
  lemma InfoLegacyRoundTrip(r: InfoRecord, pad: bytes, rest: bytes)
    requires r.InfoLegacy? && EncodableInfo(r) && |pad| == 4
    ensures DecodeInfoLegacy(LE32(r.nameId) + pad + LE32(r.xfrmIdx) + LE32(r.shape) + rest) == Ok(r)
    ensures pad == [0, 0, 0, 0] ==> DecodeInfoLegacy(EncodeInfo(r) + rest) == Ok(r)
  {
    var t12 := LE32(r.shape) + rest;
    var t8 := LE32(r.xfrmIdx) + t12;
    var t4 := pad + t8;
    var s := LE32(r.nameId) + t4;
    assert LE32(r.nameId) + pad + LE32(r.xfrmIdx) + LE32(r.shape) + rest == s;
    assert s[8..] == t8 && s[12..] == t12;
    U32Inverse(r.nameId, t4);
    U32Inverse(r.xfrmIdx, t12);
    U32Inverse(r.shape, rest);
    if pad == [0, 0, 0, 0] {
      assert EncodeInfo(r) + rest == s;
    }
  }

  function EncodeDebug(d: DebugRecord): (s: bytes)
    requires Fits32(d.gimmickId) && Fits32(d.typeId) && Fits32(d.stringId) && Fits32(d.parentId)
    ensures |s| == 16
  {
    LE32(d.gimmickId) + LE32(d.typeId) + LE32(d.stringId) + LE32(d.parentId)
  }

  lemma DebugRoundTrip(d: DebugRecord, rest: bytes)
    requires Fits32(d.gimmickId) && Fits32(d.typeId) && Fits32(d.stringId) && Fits32(d.parentId)
    ensures DecodeDebug(EncodeDebug(d) + rest) == Ok(d)
  {
    var t12 := LE32(d.parentId) + rest;
    var t8 := LE32(d.stringId) + t12;
    var t4 := LE32(d.typeId) + t8;
    var s := LE32(d.gimmickId) + t4;
    assert EncodeDebug(d) + rest == s;
    assert s[4..] == t4 && s[8..] == t8 && s[12..] == t12;
    U32Inverse(d.gimmickId, t4);
    U32Inverse(d.typeId, t8);
    U32Inverse(d.stringId, t12);
    U32Inverse(d.parentId, rest);
  }

  function EncodeWords(ws: seq<nat>): (s: bytes)
    requires forall k :: 0 <= k < |ws| ==> Fits32(ws[k])
    ensures |s| == 4 * |ws|
  {
    if ws == [] then [] else assert Fits32(ws[0]); LE32(ws[0]) + EncodeWords(ws[1..])
  }

  lemma {:induction false} WordsRoundTrip(ws: seq<nat>, rest: bytes)
    requires forall k :: 0 <= k < |ws| ==> Fits32(ws[k])
    ensures Words(EncodeWords(ws) + rest, |ws|) == ws
  {
    if ws != [] {
      var s := EncodeWords(ws) + rest;
      assert s == LE32(ws[0]) + (EncodeWords(ws[1..]) + rest);
      U32Inverse(ws[0], EncodeWords(ws[1..]) + rest);
      assert s[4..] == EncodeWords(ws[1..]) + rest;
      WordsRoundTrip(ws[1..], rest);
    }
  }

  lemma XformRoundTrip(x: Xform, rest: bytes)
    requires |x.words| == 16 && forall k :: 0 <= k < 16 ==> Fits32(x.words[k])
    ensures DecodeXform(EncodeWords(x.words) + rest) == Ok(x)
  {
    WordsRoundTrip(x.words, rest);
  }

  /** No fixed-layout decoder reads past its record: bytes after the first
      `MinLength` never change the payload. */
  lemma DecodeReadsOnlyRecord(kind: Kind, entry: bytes, extra: bytes)
    requires !kind.StringsKind? && !kind.DefaultKind? && !kind.ExtKind?
    requires |entry| == MinLength(kind)
    ensures DecodePayload(kind, entry + extra) == DecodePayload(kind, entry)
  {
    var s := entry + extra;
    if kind == XformKind {
      WordsPrefix(entry, extra, 16);
    } else {
        assert s[4..] == entry[4..] + extra;
        assert s[8..] == entry[8..] + extra;
        assert s[10..] == entry[10..] + extra;
        assert s[12..] == entry[12..] + extra;
        U32Prefix(entry, extra);
        U32Prefix(entry[4..], extra);
        U32Prefix(entry[8..], extra);
        U32Prefix(entry[12..], extra);
        U16Prefix(entry[8..], extra);
        U16Prefix(entry[10..], extra);
    }
  }

  lemma {:induction false} WordsPrefix(s: bytes, extra: bytes, n: nat)
    requires |s| >= 4 * n
    ensures Words(s + extra, n) == Words(s, n)
  {
    if n > 0 {
      U32Prefix(s, extra);
      assert (s + extra)[4..] == s[4..] + extra;
      WordsPrefix(s[4..], extra, n - 1);
    }
  }
}
