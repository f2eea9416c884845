# LVB gimmick containers, modelled in Dafny

This project models the decoding engine of `xeno_lvb.py`. The engine reads the
LVB "gimmick" containers of the Xenoblade games and builds cross-linked lookup
tables from them.

An LVB file is little-endian binary. It starts with a 32-byte file header:

- the signature `LVLB`;
- the file size;
- the format version;
- an unused hash.

A run of sections follows. Each section has a 32-byte header giving its magic,
its size, its entry count, its entry size and its INFO base index, followed by
a table of fixed-size entries. Four magics are special:

- `INFO` holds one record per gimmick. The modern layout (format version 5 and
  up, `xc3`) has a hash id and a bdat id. The legacy layout has a name offset.
- `XFRM` holds the transforms.
- `STRG` is one string blob.
- `DEBI` holds the debug names (optional).

Decoding happens in phases:

1. Walk the sections.
2. Link every entry of every ordinary section to its INFO record and its
   transform.
3. Index the entries:
   - modern format: by hash id and by bdat id;
   - legacy format: by name.
4. In the modern format, overlay the names from `DEBI`.

Modules, in dependency order:

- `Bytes` (`bytes.dfy`): byte strings, Python-style clamped slicing, the
  `u16`/`u32`/`u64` readers and their inverses.
- `Outcomes` (`outcomes.dfy`): `Option`, `Result` and the `Error` variants. Each
  variant stands for an exception the program raises:
  - `BadSignature`: the signature assertion fails.
  - `Truncated`: `struct.error` from reading past the end of the data. Like `struct.error`, it carries no position.
  - `MissingSection`: `StopIteration` from `next(filter(...))`.
  - `UnresolvedInfo` / `UnresolvedXform`: `IndexError` from an entry index.
  - `UnterminatedString`: `ValueError` from `bytes.index(0)`.
  - `StalledWalk`: a zero-size section (see Left out).
- `Keys` (`keys.dfy`): the keys of the two indices, and `name_or_bdat_hash`.
- `Payloads` (`payloads.dfy`): the magics, `mapper_registry`, and the payload
  decoders `Info`, `InfoLegacy`, `Xform`, `Debug`, `Strings` and `Default`. It
  also has encoders and round-trip lemmas for the fixed layouts.
- `Sections` (`sections.dfy`): `Entry` and `Section.__init__`.
- `Walker` (`walker.dfy`): the file header, and the section walk as a function
  plus the `while` loop proved equal to it.
- `Resolver` (`resolver.dfy`): the link phase and the debug-name overlay as
  folds over an arena. Their lemmas cover success conditions, first-error
  reporting, the linked fields, "nothing else changes" and "the last store
  wins".
- `Container` (`container.dfy`):
  - the section lookups and `_sections`;
  - the whole construction as a function (`Parse`);
  - the class `Lvb`, whose methods run the program's loops over mutable fields
    and are proved to compute `Parse`.
- `ContainerProperties` (`properties.dfy`): what a successful construction
  guarantees, stated on `Parse`.

Entries are shared objects in the program. The same `Entry` sits in its
section's list and in the gimmick and bdat maps, so a later rename through a map
shows up in the section. The model keeps every decoded section in one sequence
(the arena). The maps hold `EntryRef(section, index)` positions into it. Python's
`_sections` list is `Retained(decoded)`: the sections whose magic is not special,
in their original order.

## Model

| member | source | states |
|---|---|---|
| Bytes.Slice | xeno_lvb.py:200 | Python slicing with clamped bounds: the result's length is `min(hi, len) - lo` (0 for an empty range) and its bytes are those of the source from `lo` on |
| Bytes.U16Inverse | xeno_lvb.py:43 | `u16` reads back any 16-bit value from its little-endian encoding, whatever bytes follow |
| Bytes.LE16Inverse | xeno_lvb.py:43 | encoding the value `u16` reads gives back the two bytes it came from |
| Bytes.U32Inverse | xeno_lvb.py:45 | `u32` reads back any 32-bit value from its little-endian encoding, whatever bytes follow |
| Bytes.LE32Inverse | xeno_lvb.py:45 | encoding the value `u32` reads gives back the four bytes it came from |
| Bytes.U32Prefix | xeno_lvb.py:45 | `u32` looks only at its first four bytes |
| Bytes.U64Inverse | xeno_lvb.py:49 | `u64` reads back any 64-bit value from its little-endian encoding |
| Bytes.LE64Inverse | xeno_lvb.py:49 | encoding the value `u64` reads gives back the eight bytes it came from |
| Payloads.Registry | xeno_lvb.py:51-64 | the decoder depends only on the magic, `xc3` and the extension lookup: `INFO` gets the modern layout iff `xc3` and the legacy one iff not; `XFRM`, `DEBI`, `STRG` get their fixed decoders; any other magic gets the extension decoder iff there is one, else `Default` (each as an if-and-only-if) |
| Payloads.Strings.Read | xeno_lvb.py:166-169 | the result is the bytes from `offset` up to the first zero byte at or after it, holds no zero, and is followed by one; there is no result iff no zero byte lies at or after `offset` |
| Payloads.ZeroIndex | xeno_lvb.py:168 | `bytes.index(0)`: the position of the first zero byte, or none iff there is no zero |
| Payloads.ReadAfterWrite | xeno_lvb.py:166-169 | a zero-terminated string written at any offset of a blob reads back exactly (e.g. "boss_01" at offset 0) |
| Payloads.DecodeInfo | xeno_lvb.py:128-134 | succeeds iff the entry has at least 16 bytes, and yields the modern layout |
| Payloads.InfoRoundTrip | xeno_lvb.py:128-134 | decoding the 16-byte encoding of a modern record (bdat id@0, xfrm index@4, shape@8, sequential id@10, hash id@12) gives the record back |
| Payloads.DecodeInfoLegacy | xeno_lvb.py:145-149 | succeeds iff the entry has at least 16 bytes, and yields the legacy layout |
| Payloads.InfoLegacyRoundTrip | xeno_lvb.py:145-149 | a legacy record (name id@0, xfrm index@8, shape@12) reads back from its encoding whatever bytes 4..7 and the bytes after it hold, so the decoder ignores bytes 4..7 |
| Payloads.DecodeXform | xeno_lvb.py:155-157 | succeeds iff the entry has at least 64 bytes, and yields sixteen words |
| Payloads.XformRoundTrip | xeno_lvb.py:155-157 | decoding sixteen encoded words gives the transform back |
| Payloads.WordsRoundTrip | xeno_lvb.py:157 | reading `n` words back from their encoding gives the words, whatever follows |
| Payloads.DecodeDebug | xeno_lvb.py:171-179 | succeeds iff the entry has at least 16 bytes |
| Payloads.DebugRoundTrip | xeno_lvb.py:171-179 | decoding the encoding of a debug record (gimmick id@0, type id@4, string offset@8, parent id@12) gives the record back |
| Payloads.DecodePayload | xeno_lvb.py:79-81 | applying the chosen decoder to one entry fails iff the entry is shorter than that decoder needs; on success the payload is the variant the decoder produces (`Strings`@162-164 and `Default`@181-183 take any bytes) |
| Payloads.DecodeReadsOnlyRecord | xeno_lvb.py:128-179 | bytes past a fixed-layout record never change what the decoder returns |
| Keys.NameOrBdatHash | xeno_lvb.py:263-268 | the result is a numeric key iff the text is `<`, eight upper-case hex digits, `>` (with `$` also allowing one final newline), and then the key is below 2^32 and prints back as that token; any other text is returned unchanged as a name |
| Keys.HashTokenRoundTrip | xeno_lvb.py:263-268 | every 32-bit id written as `<XXXXXXXX>` parses back to itself |
| Keys.ParseHexDigits | xeno_lvb.py:268 | `int(digits, 16)` inverts writing a number as `w` hex digits |
| Keys.HexDigitsParse | xeno_lvb.py:268 | parsing hex digits and writing them back gives the same digits |
| Sections.NewEntry | xeno_lvb.py:99-104 | a new entry holds its payload and has no info, transform or name |
| Sections.EntryBytes | xeno_lvb.py:79 | the bytes of entry `i`, sliced and clamped as Python does; `Sections.EntryBytesInBounds` states that when the table fits in the data they are exactly the `entry_size` bytes at `start + 32 + i * entry_size` |
| Sections.DecodeEntries | xeno_lvb.py:79 | the entry list has exactly `count` entries, entry `i` decoded from the `i`-th `entry_size` slice and unlinked; it fails iff some slice is too short for the decoder |
| Sections.DecodeSection | xeno_lvb.py:66-81 | a section decodes only when the data reaches past its header fields (`start + 24`), fails with `Truncated` when it does not, and its size is the `u32` at `start + 4` |
| Sections.TableSection | xeno_lvb.py:72-79 | a non-STRG section has exactly `count` entries with entry `i` decoded from slice `i`; it succeeds iff every slice is long enough; its magic and INFO base are the header's |
| Sections.EntryBytesInBounds | xeno_lvb.py:79 | when the table fits in the data, entry `i` is exactly `data[start+32+i*size .. start+32+(i+1)*size]` |
| Sections.StringSection | xeno_lvb.py:78-81 | a STRG section always decodes to one `Strings` entry over `[start+32, start+size)`, whatever its count and entry size say |
| Sections.SectionWellDecoded | xeno_lvb.py:66-81 | every decoded section has a 4-byte magic; every entry is unlinked and holds the variant its magic's decoder produces; STRG has exactly one entry |
| Walker.IsModern | xeno_lvb.py:197 | the format switch `xc3`: the modern layouts apply iff the version field is at least 5; `Container.Prepare` ties the link context's `xc3` to this test of the header's version |
| Walker.ParseHeader | xeno_lvb.py:192-198 | succeeds iff the data has 16 bytes and starts with `LVLB`; fails with `BadSignature` iff the signature is missing; the size and version are 32-bit |
| Walker.HeaderRoundTrip | xeno_lvb.py:193-198 | a written header reads back its size and version, whatever hash and bytes follow |
| Walker.Walk | xeno_lvb.py:200-208 | the section walk as a function of the section decoder and the limit `file_size - 32`; `Walker.WalkSections` proves that the loop computes it, and `Walker.WalkLayout` states where each section was decoded and where the walk stops |
| Walker.WalkSections | xeno_lvb.py:200-208 | the `while` loop computes exactly the walk function `Walk` |
| Walker.WalkLayout | xeno_lvb.py:200-208 | the sections come in file order: section `k` is decoded at the start plus the sizes of the sections before it, each such offset is below the limit, each size is positive, and the offset after the last section is not below the limit |
| Walker.WalkWellDecoded | xeno_lvb.py:205-207 | every section of a successful walk is well decoded and has a positive size |
| Resolver.Update | xeno_lvb.py:223-224 | updating an entry in place changes that entry and nothing else, and keeps every section's shape |
| Resolver.ReadString | xeno_lvb.py:230 | `strings.read` succeeds iff a zero byte ends the string, fails with `UnterminatedString` otherwise, and returns `Strings.Read`'s text |
| Resolver.Resolve | xeno_lvb.py:221-231 | a successful lookup fits the format: a modern INFO record in the modern format, a name in the legacy one |
| Resolver.ResolveSpec | xeno_lvb.py:221-231 | the lookups for INFO index `b` fail with `UnresolvedInfo` iff `b` is past INFO, else with `UnresolvedXform` iff the record's xfrm index is past XFRM, else (legacy) with `UnterminatedString` iff its name has no terminator; otherwise they give `INFO[b]`, the transform it selects, and (legacy) the name at its `name_id` |
| Resolver.Linked | xeno_lvb.py:223-231 | linking sets info and transform, sets the name only in the legacy format, and keeps the payload |
| Resolver.LinkEntry | xeno_lvb.py:222-232 | one turn of the inner loop succeeds iff the lookups do, fails with their error, and keeps the arena's shape |
| Resolver.LinkEntryOk | xeno_lvb.py:223-232 | a successful turn stores the linked entry and maps its gimmick key (hash id, or legacy name) and, modern format only, its bdat id to its position |
| Resolver.LinkSeqOk | xeno_lvb.py:218-232 | the link phase succeeds iff the lookups succeed for every visited entry |
| Resolver.LinkSeqFirstError | xeno_lvb.py:218-232 | a failing link phase fails with the error of the first visited entry whose lookups fail |
| Resolver.LinkSeqValidMaps | xeno_lvb.py:225-232 | every key of both maps names an existing entry after linking |
| Resolver.LinkSeq | xeno_lvb.py:218-232 | one link-loop turn per visited position, in order, stopping at the first failed lookup; it keeps every section's shape, and `LinkSeqOk`, `LinkSeqFirstError`, `LinkSeqEntries` and `LinkSeqMaps` state when it succeeds, which error it reports, and what the entries and maps become |
| Resolver.LinkAll | xeno_lvb.py:218-232 | the whole link phase, over the positions of every entry of every non-special section; `Resolver.LinkAllEntries` states that each such entry is linked to its own lookups and that special sections are untouched |
| Resolver.Positions | xeno_lvb.py:218-222 | the visiting order names only existing entries |
| Resolver.PositionsComplete | xeno_lvb.py:218-222 | the loops visit exactly the entries of the non-special sections |
| Resolver.PositionsOrdered | xeno_lvb.py:218-222 | the loops visit the entries in file order, each once |
| Resolver.LinkSeqEntries | xeno_lvb.py:218-231 | after linking, each visited entry is linked to what its INFO index selects and every other entry is unchanged |
| Resolver.LinkAllEntries | xeno_lvb.py:218-231 | after the whole link phase every entry of an ordinary section is linked to its lookups, and every entry of a special section is untouched |
| Resolver.Indexed | xeno_lvb.py:226-232 | a run of dictionary stores, in order; `Resolver.IndexedLastWins` states presence, that the last store to a key wins, and that other keys keep their values |
| Resolver.IndexedLastWins | xeno_lvb.py:226-232 | after a run of dictionary stores a key is present iff it was before or was stored; the last store to a key wins; other keys keep their values |
| Resolver.LinkSeqMaps | xeno_lvb.py:225-232 | after linking, the gimmick map is the visited positions stored in order under their gimmick keys, and the bdat map (modern only) the same under their bdat ids; the legacy bdat map stays empty |
| Resolver.OverlayEntry | xeno_lvb.py:236-241 | a debug record whose gimmick id is unknown is skipped; otherwise the turn succeeds iff its string is terminated; the maps and shapes never change |
| Resolver.OverlaySeq | xeno_lvb.py:235-241 | the overlay succeeds iff every record naming a known gimmick has a terminated string; it changes neither map |
| Resolver.OverlayNames | xeno_lvb.py:235-241 | the overlay changes names only: an entry no record names is unchanged, and a named entry gets the string of the last record naming it |
| Container.FindFirst | xeno_lvb.py:210-213 | `next(filter(...))`: the index of the first section with the magic, or none iff no section has it |
| Container.Required | xeno_lvb.py:210-213 | a required lookup succeeds iff some section has the magic, and otherwise fails with `MissingSection` for that magic |
| Container.Retained | xeno_lvb.py:246 | `_sections`, the filter that drops special sections; `RetainedMembers`, `RetainedConcat` and `RetainedFirst` state which sections it keeps, that it keeps their order, and what `section(magic)` finds in it |
| Container.RetainedMembers | xeno_lvb.py:246 | a section is retained iff it was decoded and its magic is not special |
| Container.RetainedConcat | xeno_lvb.py:246 | the filter distributes over concatenation, so it keeps the order |
| Container.RetainedFirst | xeno_lvb.py:246-249 | `section(magic)` never finds a special magic, and for any other magic finds the first decoded section with it |
| Container.DebugOf | xeno_lvb.py:212 | the overlay uses the records of the first DEBI section when the format is modern and DEBI exists, and no records otherwise |
| Container.ContextOf | xeno_lvb.py:210-213 | INFO's records are the payloads of the selected INFO section (modern layout iff `xc3`), XFRM's transforms are the payloads of the selected XFRM section, and the string blob is the one STRG entry |
| Container.Prepare | xeno_lvb.py:192-213 | a header error is the construction's error; otherwise a walk error over `data[32:file_size]` is, and then `MissingSection` for the first of INFO, XFRM, STRG that is absent. It succeeds iff all three exist, and then its header is `ParseHeader(data)` and its sections are that walk. A prepared container has `xc3` iff version >= 5 and well-decoded sections. Its INFO, XFRM, STRG and (modern only) DEBI inputs come from the first section of each magic |
| Container.Parse | xeno_lvb.py:190-246 | after construction every key of both maps names an existing entry |
| Container.Decoded.Section | xeno_lvb.py:248-249 | a found section was decoded, has the magic, and the magic is not special |
| Container.Lvb.constructor | xeno_lvb.py:215-216 | both maps start empty over the decoded sections |
| Container.Lvb.Link | xeno_lvb.py:218-232 | the nested loops fail iff the link phase does, with its error; otherwise they leave exactly its state and keep the object's invariant that every map key names an existing entry |
| Container.Lvb.LinkSection | xeno_lvb.py:220-232 | the inner loop over one ordinary section is the link phase over that section's entries |
| Container.Lvb.LinkStep | xeno_lvb.py:223-232 | one turn of the inner loop is one step of the link phase, or its error |
| Container.Lvb.LinkEntryAt | xeno_lvb.py:223-232 | the field stores and dictionary stores of one turn produce the state `LinkEntry` describes |
| Container.Lvb.OverlayRecord | xeno_lvb.py:236-241 | one debug record: its hash is looked up in the gimmick map, an unknown one is skipped, a known one gets the name read from the STRG buffer, and a failed read is the error of the whole overlay |
| Container.Lvb.OverlayDebugNames | xeno_lvb.py:235-241 | the overlay loop fails iff the overlay does, with its error; otherwise it leaves exactly its state; the object's invariant holds either way |
| Container.Lvb.Begin | xeno_lvb.py:192-213 | the statements before the link loop compute `Prepare` |
| Container.Lvb.Load | xeno_lvb.py:191-246 | `Lvb(data)` succeeds iff `Parse` does and then yields a fresh object whose state is `Parse`'s result; it fails with `Parse`'s error |
| Container.Lvb.FindSection | xeno_lvb.py:248-249 | `section(magic)` is none for a special magic and the first decoded section with the magic otherwise |
| Container.Lvb.Gimmick | xeno_lvb.py:251-252 | `gimmick(key)` finds an entry iff the key is in the gimmick map, and it is the entry the map names |
| Container.Lvb.BdatGimmick | xeno_lvb.py:254-255 | `bdat_gimmick(key)` finds an entry iff the key is in the bdat map, and it is the entry the map names |
| ContainerProperties.ParseSignature | xeno_lvb.py:193-198 | construction fails with `BadSignature` without the `LVLB` signature, and a constructed container had the signature and a full 16-byte header |
| ContainerProperties.ParsePhases | xeno_lvb.py:191-246 | a successful construction is prepare, then link every ordinary entry from empty maps, then the overlay |
| ContainerProperties.ParseLinks | xeno_lvb.py:218-224 | after construction every entry of an ordinary section has `info == INFO.entries[info_idx + i]` and `xfrm == XFRM.entries[info.xfrm_idx]` (both in range); special sections' entries are never linked; payloads never change |
| ContainerProperties.ParseNames | xeno_lvb.py:229-241 | legacy format: each ordinary entry's name is the string at its INFO `name_id`; modern format: an entry no debug record names has no name, and a named entry has the string of the last record naming it |
| ContainerProperties.LinkedNames | xeno_lvb.py:218-232 | the link phase names no entry in the modern format or in a special section; in the legacy format it names each ordinary entry with the string at its INFO record's `name_id`, and that lookup succeeds |
| ContainerProperties.OverlaidNames | xeno_lvb.py:235-241 | over entries the link phase left unnamed, the overlay leaves untargeted entries unnamed and gives each targeted entry the string of the last record targeting it |
| ContainerProperties.ParseMaps | xeno_lvb.py:225-232 | every ordinary entry's lookups succeed, and the maps are the ordinary entries stored in file order under their gimmick keys and (modern only) their bdat ids, so on a collision the later entry wins |

## Left out

- The command-line block (xeno_lvb.py:270-310), every `to_json` method and `JSON_INCL_BYTES`: these are output formatting and file I/O.
- `ext_import` and `get_ext_mapper`: these load foreign modules. The extension lookup is the function parameter `ExtLookup`, and an extension decoder's payload keeps its raw bytes. Whether that decoder raises is not modelled.
- `f32`: transforms are their sixteen raw 32-bit words, not floating-point values.
- Resolver.ReadString: UTF-8 decoding is not modelled. Names are byte strings, so an invalid UTF-8 name (a `UnicodeDecodeError` in the program) succeeds in the model.
- Container.Lvb.FindSection: `section` encodes its `str` argument as UTF-8. The model takes the magic as bytes.
- Keys.NameOrBdatHash: query text is taken as bytes, so the regex matches the UTF-8 bytes of the text.
- Walker.Walk: a section whose declared size is 0 never advances the offset, so the program loops forever. The model stops with `StalledWalk` instead.
- The unused header hash, header bytes 16-31 and each section's `_version` are not kept, apart from the length checks their reads imply. The header read of the hash fails on data shorter than 16 bytes, and the model fails there too.
- `Section.entry`, `size` and `magic`, and `Entry.info`, `xfrm` and `dyn_cast`, are plain field reads of the `Section` and `Entry` datatypes.
- `u64` is modelled with its inverse lemmas, but the program never calls it.

Where the prose description of the format and the code differ, the model follows the code:

- The code takes the first `INFO`, `XFRM`, `STRG` and `DEBI` section and ignores later ones. It does not require exactly one of each.
- A name whose string is unterminated ends the whole construction with an error. It does not leave the name absent.
- No consistency check relates a section's entry count and entry size to its declared size.
