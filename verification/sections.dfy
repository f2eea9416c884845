/** `Section` and `Entry`: a 32-byte section header followed by its entry table. */
module Sections {
  import opened Bytes
  import opened Outcomes
  import opened Payloads

  const HEADER_SIZE: nat := 32

  /** `Entry`: a decoded payload, plus the info and transform it is linked to
      and its display name, all absent until the resolver fills them in. */
  datatype Entry = Entry(mapped: Payload, info: Option<InfoRecord>, xfrm: Option<Xform>, name: Option<bytes>)

  /** `Entry.__init__`: a payload with nothing linked yet. */
  function NewEntry(p: Payload): (e: Entry)
    ensures e.mapped == p && e.info.None? && e.xfrm.None? && e.name.None?
  {
    Entry(p, None, None, None)
  }

  /** A decoded section. `size` drives the walk; `infoIdx` is the INFO index of
      its first entry. (The section version is read but never used.) */
  datatype Section = Section(magic: bytes, size: nat, infoIdx: nat, entries: seq<Entry>)

  /** What every decoded section satisfies: every entry holds an unlinked payload
      of the variant the registry chose for the magic, and a STRG section holds
      exactly one entry. */
  predicate WellDecoded(sec: Section, xc3: bool, ext: ExtLookup) {
    && |sec.magic| == 4
    && (forall e | e in sec.entries :: Produces(Registry(sec.magic, xc3, ext), e.mapped) && e == NewEntry(e.mapped))
    && (sec.magic == STRG ==> |sec.entries| == 1)
  }

  /** The bytes of entry `i` of the section at `start`: the slice
      `[start+32+i*size, start+32+(i+1)*size)`, clamped like a Python slice. */
  function EntryBytes(data: bytes, start: nat, size: nat, i: nat): bytes {
    Slice(data, start + HEADER_SIZE + i * size, start + HEADER_SIZE + (i + 1) * size)
  }

  /** The entry list `[Entry(mapper(...)) for i in range(count)]`; the first entry
      whose decoder runs out of bytes aborts it. */
  function DecodeEntries(data: bytes, kind: Kind, start: nat, size: nat, count: nat): (r: Result<seq<Entry>>)
    ensures r.Ok? ==> && |r.value| == count
                      && forall i :: 0 <= i < count ==>
                           DecodePayload(kind, EntryBytes(data, start, size, i)) == Ok(r.value[i].mapped)
                           && r.value[i] == NewEntry(r.value[i].mapped)
    ensures r.Err? <==> exists i :: 0 <= i < count && DecodePayload(kind, EntryBytes(data, start, size, i)).Err?
  {
    if count == 0 then Ok([])
    else
      var init :- DecodeEntries(data, kind, start, size, count - 1);
      var p :- DecodePayload(kind, EntryBytes(data, start, size, count - 1));
      Ok(init + [NewEntry(p)])
  }

  /** `Section.__init__`: reads magic@0, size@4, count@12, entry size@16 and info
      index@20 of the header at `start`, then the entries after the header. A
      STRG section is one `Strings` entry spanning `[start+32, start+size)`. */
  function DecodeSection(data: bytes, xc3: bool, ext: ExtLookup, start: nat): (r: Result<Section>)
    ensures r.Ok? ==> |data| >= start + 24 && r.value.size == U32(data[start + 4..])
    ensures |data| < start + 24 ==> r == Err(Truncated)
  {
    if |data| < start + 24 then Err(Truncated)
    else
      var magic := data[start .. start + 4];
      var kind := Registry(magic, xc3, ext);
      var size := U32(data[start + 4..]);
      var count := U32(data[start + 12..]);
      var entrySize := U32(data[start + 16..]);
      var infoIdx := U32(data[start + 20..]);
      if magic != STRG then
        var entries :- DecodeEntries(data, kind, start, entrySize, count);
        Ok(Section(magic, size, infoIdx, entries))
      else
        var p :- DecodePayload(kind, Slice(data, start + HEADER_SIZE, start + size));
        Ok(Section(magic, size, infoIdx, [NewEntry(p)]))
  }

  /** Every section the decoder yields is well decoded. */
  lemma SectionWellDecoded(data: bytes, xc3: bool, ext: ExtLookup, start: nat)
    requires DecodeSection(data, xc3, ext, start).Ok?
    ensures WellDecoded(DecodeSection(data, xc3, ext, start).value, xc3, ext)
  {
  }

  /** A non-STRG section has exactly `count` entries, entry `i` decoded from the
      `i`-th `entry_size` slice after the header, and it fails exactly when one
      of those slices is too short for the section's decoder. */
  lemma TableSection(data: bytes, xc3: bool, ext: ExtLookup, start: nat)
    requires |data| >= start + 24 && data[start .. start + 4] != STRG
    ensures var kind, count, size := Registry(data[start .. start + 4], xc3, ext), U32(data[start + 12..]), U32(data[start + 16..]);
            var r := DecodeSection(data, xc3, ext, start);
            && (r.Ok? <==> forall i :: 0 <= i < count ==> |EntryBytes(data, start, size, i)| >= MinLength(kind))
            && (r.Ok? ==> && |r.value.entries| == count
                          && r.value.magic == data[start .. start + 4]
                          && r.value.infoIdx == U32(data[start + 20..])
                          && forall i :: 0 <= i < count ==>
                               DecodePayload(kind, EntryBytes(data, start, size, i)) == Ok(r.value.entries[i].mapped))
  {
  }

  /** When the table fits in the data, entry `i`'s bytes are exactly
      `data[start+32+i*size .. start+32+(i+1)*size]`. */
  lemma EntryBytesInBounds(data: bytes, start: nat, size: nat, count: nat, i: nat)
    requires i < count && start + HEADER_SIZE + count * size <= |data|
    ensures EntryBytes(data, start, size, i)
            == data[start + HEADER_SIZE + i * size .. start + HEADER_SIZE + (i + 1) * size]
    ensures |EntryBytes(data, start, size, i)| == size
  {
    MulMonotone(i + 1, count, size);
  }

  lemma MulMonotone(a: nat, b: nat, c: nat)
    requires a <= b
    ensures a * c <= b * c
  {
  }

  /** A STRG section always decodes to one `Strings` entry over
      `[start+32, start+size)`, whatever its count and entry size say. */
  lemma StringSection(data: bytes, xc3: bool, ext: ExtLookup, start: nat)
    requires |data| >= start + 24 && data[start .. start + 4] == STRG
    ensures var r := DecodeSection(data, xc3, ext, start);
            var size := U32(data[start + 4..]);
            && r.Ok?
            && r.value.entries == [NewEntry(StringsPayload(Strings(Slice(data, start + HEADER_SIZE, start + size))))]
            && (HEADER_SIZE <= size && start + size <= |data| ==>
                  r.value.entries[0].mapped.strings.buf == data[start + HEADER_SIZE .. start + size])
  {
  }
}
