/** `Lvb`: a whole LVB container, decoded, cross-linked and indexed, with the
    lookups `section`, `gimmick` and `bdat_gimmick`. */
module Container {
  import opened Bytes
  import opened Outcomes
  import opened Payloads
  import opened Sections
  import opened Keys
  import opened Walker
  import opened Resolver

  /** `next(filter(lambda s: s.magic() == magic, secs), None)`, as an index. */
  function FindFirst(secs: seq<Section>, magic: bytes): (r: Option<nat>)
    ensures r.Some? ==> && r.value < |secs| && secs[r.value].magic == magic
                        && forall k :: 0 <= k < r.value ==> secs[k].magic != magic
    ensures r.None? <==> forall k :: 0 <= k < |secs| ==> secs[k].magic != magic
  {
    if secs == [] then None
    else if secs[0].magic == magic then Some(0)
    else match FindFirst(secs[1..], magic)
      case None => None
      case Some(k) => Some(k + 1)
  }

  /** The first section with the given magic. */
  function FirstWith(secs: seq<Section>, magic: bytes): Option<Section> {
    match FindFirst(secs, magic)
    case None => None
    case Some(k) => Some(secs[k])
  }

  /** `next(filter(...))` without a default: a missing section is an error. */
  function Required(secs: seq<Section>, magic: bytes): (r: Result<nat>)
    ensures r.Ok? <==> FindFirst(secs, magic).Some?
    ensures r.Ok? ==> r.value == FindFirst(secs, magic).value
    ensures r.Err? ==> r.error == MissingSection(magic)
  {
    match FindFirst(secs, magic)
    case None => Err(MissingSection(magic))
    case Some(k) => Ok(k)
  }

  /** `_sections`: the decoded sections whose magic is not special, in order. */
  function Retained(secs: seq<Section>): seq<Section> {
    if secs == [] then []
    else (if IsSpecial(secs[0].magic) then [] else [secs[0]]) + Retained(secs[1..])
  }

  /** A section is retained iff it was decoded and its magic is not special. */
  lemma {:induction false} RetainedMembers(secs: seq<Section>)
    ensures forall s :: s in Retained(secs) <==> s in secs && !IsSpecial(s.magic)
  {
    if secs != [] {
      RetainedMembers(secs[1..]);
      assert forall s :: s in secs <==> s == secs[0] || s in secs[1..];
    }
  }

  /** Filtering distributes over concatenation, so it keeps the order. */
  lemma {:induction false} RetainedConcat(a: seq<Section>, b: seq<Section>)
    ensures Retained(a + b) == Retained(a) + Retained(b)
  {
    if a != [] {
      assert (a + b)[0] == a[0] && (a + b)[1..] == a[1..] + b;
      RetainedConcat(a[1..], b);
      var head := if IsSpecial(a[0].magic) then [] else [a[0]];
      assert Retained(a + b) == head + Retained((a + b)[1..]);
      assert Retained(a) == head + Retained(a[1..]);
      assert head + (Retained(a[1..]) + Retained(b)) == (head + Retained(a[1..])) + Retained(b);
    } else {
      assert a + b == b;
    }
  }

  /** Looking up an ordinary magic among the retained sections finds the first
      decoded section with that magic; a special magic is never found. */
  lemma {:induction false} RetainedFirst(secs: seq<Section>, magic: bytes)
    ensures IsSpecial(magic) ==> FirstWith(Retained(secs), magic).None?
    ensures !IsSpecial(magic) ==> FirstWith(Retained(secs), magic) == FirstWith(secs, magic)
  {
    if secs != [] {
      RetainedFirst(secs[1..], magic);
      var r := Retained(secs);
      FirstWithCons(secs, magic);
      if IsSpecial(secs[0].magic) {
        assert r == Retained(secs[1..]);
      } else {
        assert r == [secs[0]] + Retained(secs[1..]);
        FirstWithCons(r, magic);
        assert r[0] == secs[0] && r[1..] == Retained(secs[1..]);
      }
    }
  }

  lemma FirstWithCons(secs: seq<Section>, magic: bytes)
    requires secs != []
    ensures FirstWith(secs, magic) == if secs[0].magic == magic then Some(secs[0]) else FirstWith(secs[1..], magic)
  {
    if secs[0].magic != magic {
      match FindFirst(secs[1..], magic)
      case None =>
      case Some(k) => assert secs[k + 1] == secs[1..][k];
    }
  }

  /** The records of the INFO section, by entry index. */
  function InfoRecords(sec: Section): (infos: seq<InfoRecord>)
    requires forall k :: 0 <= k < |sec.entries| ==> sec.entries[k].mapped.InfoPayload?
    ensures |infos| == |sec.entries|
    ensures forall k :: 0 <= k < |infos| ==> sec.entries[k].mapped == InfoPayload(infos[k])
  {
    seq(|sec.entries|, k requires 0 <= k < |sec.entries| => sec.entries[k].mapped.info)
  }

  /** The transforms of the XFRM section, by entry index. */
  function XformRecords(sec: Section): (xforms: seq<Xform>)
    requires forall k :: 0 <= k < |sec.entries| ==> sec.entries[k].mapped.XformPayload?
    ensures |xforms| == |sec.entries|
    ensures forall k :: 0 <= k < |xforms| ==> sec.entries[k].mapped == XformPayload(xforms[k])
  {
    seq(|sec.entries|, k requires 0 <= k < |sec.entries| => sec.entries[k].mapped.xform)
  }

  /** The records of the DEBI section, in order. */
  function DebugRecords(sec: Section): (ds: seq<DebugRecord>)
    requires forall k :: 0 <= k < |sec.entries| ==> sec.entries[k].mapped.DebugPayload?
    ensures |ds| == |sec.entries|
    ensures forall k :: 0 <= k < |ds| ==> sec.entries[k].mapped == DebugPayload(ds[k])
  {
    seq(|sec.entries|, k requires 0 <= k < |sec.entries| => sec.entries[k].mapped.debug)
  }

  /** Everything the link phase starts from: the header, the decoded sections,
      what INFO, XFRM and STRG provide, and the debug records to overlay (none
      in the legacy format or without a DEBI section). */
  datatype Plan = Plan(header: Header, sections: seq<Section>, ctx: Ctx, debug: seq<DebugRecord>)

  /** INFO's records are the payloads of `sec`'s entries, in order. */
  predicate InfosOf(sec: Section, infos: seq<InfoRecord>) {
    |infos| == |sec.entries| && forall k :: 0 <= k < |infos| ==> sec.entries[k].mapped == InfoPayload(infos[k])
  }

  predicate XformsOf(sec: Section, xforms: seq<Xform>) {
    |xforms| == |sec.entries| && forall k :: 0 <= k < |xforms| ==> sec.entries[k].mapped == XformPayload(xforms[k])
  }

  predicate DebugOfSection(sec: Section, ds: seq<DebugRecord>) {
    |ds| == |sec.entries| && forall k :: 0 <= k < |ds| ==> sec.entries[k].mapped == DebugPayload(ds[k])
  }

  /** The link context and the debug records come from the first INFO, XFRM,
      STRG and (modern format only) DEBI sections. */
  predicate Selected(secs: seq<Section>, ctx: Ctx, debug: seq<DebugRecord>) {
    && FirstWith(secs, INFO).Some? && InfosOf(FirstWith(secs, INFO).value, ctx.infos)
    && FirstWith(secs, XFRM).Some? && XformsOf(FirstWith(secs, XFRM).value, ctx.xforms)
    && FirstWith(secs, STRG).Some? && FirstWith(secs, STRG).value.entries == [NewEntry(StringsPayload(ctx.strings))]
    && if ctx.xc3 && FirstWith(secs, DEBI).Some? then DebugOfSection(FirstWith(secs, DEBI).value, debug)
       else debug == []
  }

  /** The first DEBI section's records, when the modern format has one. */
  function DebugOf(secs: seq<Section>, xc3: bool, ext: ExtLookup): (ds: seq<DebugRecord>)
    requires forall k :: 0 <= k < |secs| ==> WellDecoded(secs[k], xc3, ext)
    ensures if xc3 && FirstWith(secs, DEBI).Some? then DebugOfSection(FirstWith(secs, DEBI).value, ds) else ds == []
  {
    match FindFirst(secs, DEBI)
    case Some(k) =>
      assert WellDecoded(secs[k], xc3, ext);
      assert forall j :: 0 <= j < |secs[k].entries| ==> secs[k].entries[j] in secs[k].entries;
      if xc3 then DebugRecords(secs[k]) else []
    case None => []
  }

  /** The sections the INFO, XFRM and STRG lookups select, as the link context. */
  function ContextOf(secs: seq<Section>, xc3: bool, ext: ExtLookup, info: nat, xfrm: nat, strg: nat): (ctx: Ctx)
    requires forall k :: 0 <= k < |secs| ==> WellDecoded(secs[k], xc3, ext)
    requires info < |secs| && secs[info].magic == INFO
    requires xfrm < |secs| && secs[xfrm].magic == XFRM
    requires strg < |secs| && secs[strg].magic == STRG
    ensures CtxValid(ctx) && ctx.xc3 == xc3
    ensures InfosOf(secs[info], ctx.infos) && XformsOf(secs[xfrm], ctx.xforms)
    ensures secs[strg].entries == [NewEntry(StringsPayload(ctx.strings))]
  {
    assert WellDecoded(secs[info], xc3, ext) && WellDecoded(secs[xfrm], xc3, ext) && WellDecoded(secs[strg], xc3, ext);
    assert forall k :: 0 <= k < |secs[info].entries| ==> secs[info].entries[k] in secs[info].entries;
    assert forall k :: 0 <= k < |secs[xfrm].entries| ==> secs[xfrm].entries[k] in secs[xfrm].entries;
    assert secs[strg].entries[0] in secs[strg].entries;
    Ctx(xc3, InfoRecords(secs[info]), XformRecords(secs[xfrm]), secs[strg].entries[0].mapped.strings)
  }

  /** The section walk over the body of `data` that the header describes:
      `data[32:file_size]`, walked up to `file_size - 32`, in the format the
      header's version selects. */
  function BodyWalk(data: bytes, header: Header, ext: ExtLookup): Result<seq<Section>> {
    Walk(SectionDecoder(Slice(data, FILE_HEADER_SIZE, header.fileSize), IsModern(header.version), ext),
         header.fileSize - FILE_HEADER_SIZE, 0)
  }

  /** The INFO, XFRM and STRG sections the construction requires are all present. */
  predicate RequiredPresent(secs: seq<Section>) {
    FindFirst(secs, INFO).Some? && FindFirst(secs, XFRM).Some? && FindFirst(secs, STRG).Some?
  }

  /** `Lvb.__init__` up to the link loop: the header, the section walk and the
      INFO, XFRM, DEBI and STRG lookups. */
  function Prepare(data: bytes, ext: ExtLookup): (r: Result<Plan>)
    ensures ParseHeader(data).Err? ==> r == Err(ParseHeader(data).error)
    ensures ParseHeader(data).Ok? ==>
              var walk := BodyWalk(data, ParseHeader(data).value, ext);
              && (walk.Err? ==> r == Err(walk.error))
              && (walk.Ok? ==> (r.Ok? <==> RequiredPresent(walk.value)))
              && (walk.Ok? && FindFirst(walk.value, INFO).None? ==> r == Err(MissingSection(INFO)))
              && ((walk.Ok? && FindFirst(walk.value, INFO).Some? && FindFirst(walk.value, XFRM).None?)
                    ==> r == Err(MissingSection(XFRM)))
              && ((walk.Ok? && FindFirst(walk.value, INFO).Some? && FindFirst(walk.value, XFRM).Some?
                   && FindFirst(walk.value, STRG).None?) ==> r == Err(MissingSection(STRG)))
              && (r.Ok? ==> r.value.header == ParseHeader(data).value && walk == Ok(r.value.sections))
    ensures r.Ok? ==> && CtxValid(r.value.ctx)
                      && r.value.ctx.xc3 == IsModern(r.value.header.version)
                      && (forall k :: 0 <= k < |r.value.sections| ==> WellDecoded(r.value.sections[k], r.value.ctx.xc3, ext))
                      && Selected(r.value.sections, r.value.ctx, r.value.debug)
  {
    var header :- ParseHeader(data);
    var xc3 := IsModern(header.version);
    var body := Slice(data, FILE_HEADER_SIZE, header.fileSize);
    var secs :- BodyWalk(data, header, ext);
    WalkWellDecoded(body, header.fileSize - FILE_HEADER_SIZE, xc3, ext, secs);
    var info :- Required(secs, INFO);
    var xfrm :- Required(secs, XFRM);
    var strg :- Required(secs, STRG);
    Ok(Plan(header, secs, ContextOf(secs, xc3, ext, info, xfrm, strg), DebugOf(secs, xc3, ext)))
  }

  /** A decoded container: its format version, and the arena of all decoded
      sections with the gimmick and bdat maps into it. */
  datatype Decoded = Decoded(version: nat, state: LinkState) {

    /** `Lvb.section`: the first retained section with the magic. */
    function Section(magic: bytes): (r: Option<Sections.Section>)
      ensures r.Some? ==> r.value in state.sections && r.value.magic == magic && !IsSpecial(magic)
    {
      RetainedMembers(state.sections);
      FirstWith(Retained(state.sections), magic)
    }
  }

  /** `Lvb(data)`: the whole construction, including the link loop and the
      debug-name overlay. */
  function Parse(data: bytes, ext: ExtLookup): (r: Result<Decoded>)
    ensures r.Ok? ==> ValidMaps(r.value.state)
  {
    var plan :- Prepare(data, ext);
    LinkSeqValidMaps(LinkState(plan.sections, map[], map[]), plan.ctx, Positions(plan.sections, 0, 0));
    var linked :- LinkAll(LinkState(plan.sections, map[], map[]), plan.ctx);
    var named :- OverlaySeq(linked, plan.ctx.strings, plan.debug);
    Ok(Decoded(plan.header.version, named))
  }

  /** The decoder object. Its construction mutates the entries of the decoded
      sections in place and fills the two maps, step by step. */
  class Lvb {
    var version: nat
    /** Every section the walk decoded, special ones included; `_sections` is
        the retained part of it. */
    var decoded: seq<Sections.Section>
    var gimmickMap: map<Key, EntryRef>
    var gimmickBdatMap: map<Key, EntryRef>

    function State(): LinkState
      reads this
    {
      LinkState(decoded, gimmickMap, gimmickBdatMap)
    }

    function Model(): Decoded
      reads this
    {
      Decoded(version, State())
    }

    ghost predicate Valid()
      reads this
    {
      ValidMaps(State())
    }

    /** The object as it stands after the section walk, before linking. */
    constructor (version: nat, decoded: seq<Sections.Section>)
      ensures this.version == version && this.decoded == decoded
      ensures gimmickMap == map[] && gimmickBdatMap == map[]
      ensures Valid()
    {
      this.version := version;
      this.decoded := decoded;
      gimmickMap := map[];
      gimmickBdatMap := map[];
    }

    /** The link loop: for every section whose magic is not special, and every
        entry of it, look up its INFO record and transform, store them (and in
        the legacy format its name) in the entry, and index it. */
    method Link(ctx: Ctx) returns (failure: Option<Error>)
      requires CtxValid(ctx) && Valid()
      modifies this
      ensures version == old(version)
      ensures failure.None? ==> Valid()
      ensures failure.None? <==> LinkAll(old(State()), ctx).Ok?
      ensures failure.None? ==> State() == LinkAll(old(State()), ctx).value
      ensures failure.Some? ==> failure.value == LinkAll(old(State()), ctx).error
    {
      ghost var shape := decoded;
      ghost var all := LinkAll(State(), ctx);
      LinkSeqValidMaps(State(), ctx, Positions(decoded, 0, 0));
      var s := 0;
      while s < |decoded|
        invariant 0 <= s <= |shape| && SameShape(shape, decoded) && version == old(version)
        invariant AllValid(decoded, Positions(shape, s, 0))
        invariant all == LinkSeq(State(), ctx, Positions(shape, s, 0))
      {
        if !IsSpecial(decoded[s].magic) {
          failure := LinkSection(ctx, shape, s);
          if failure.Some? {
            return;
          }
        } else {
          assert Positions(shape, s, 0) == Positions(shape, s + 1, 0);
        }
        s := s + 1;
      }
      assert Positions(shape, s, 0) == [];
      return None;
    }

    /** The inner loop of the link phase, over the entries of section `s`. */
    method LinkSection(ctx: Ctx, ghost shape: seq<Sections.Section>, s: nat) returns (failure: Option<Error>)
      requires CtxValid(ctx) && s < |shape| && !IsSpecial(shape[s].magic)
      requires SameShape(shape, decoded)
      modifies this
      ensures version == old(version) && SameShape(shape, decoded)
      ensures AllValid(old(decoded), Positions(shape, s, 0)) && AllValid(decoded, Positions(shape, s + 1, 0))
      ensures failure.None? ==> LinkSeq(old(State()), ctx, Positions(shape, s, 0))
                                == LinkSeq(State(), ctx, Positions(shape, s + 1, 0))
      ensures failure.Some? ==> LinkSeq(old(State()), ctx, Positions(shape, s, 0)) == Err(failure.value)
    {
      SameBase(shape, decoded, Positions(shape, s, 0));
      ghost var all := LinkSeq(State(), ctx, Positions(shape, s, 0));
      var base := decoded[s].infoIdx;
      var i := 0;
      while i < |decoded[s].entries|
        invariant 0 <= i <= |shape[s].entries| && SameShape(shape, decoded) && version == old(version)
        invariant base == shape[s].infoIdx
        invariant AllValid(decoded, Positions(shape, s, i))
        invariant all == LinkSeq(State(), ctx, Positions(shape, s, i))
      {
        failure := LinkStep(ctx, shape, s, i, base);
        if failure.Some? {
          return;
        }
        i := i + 1;
      }
      assert Positions(shape, s, i) == Positions(shape, s + 1, 0);
      SameBase(shape, decoded, Positions(shape, s + 1, 0));
      return None;
    }

    /** One turn of the inner loop: look up the INFO record and the transform of
        entry `i` of section `s`, and link and index the entry when both exist. */
    method LinkStep(ctx: Ctx, ghost shape: seq<Sections.Section>, s: nat, i: nat, base: nat) returns (failure: Option<Error>)
      requires CtxValid(ctx) && s < |shape| && i < |shape[s].entries| && !IsSpecial(shape[s].magic)
      requires SameShape(shape, decoded) && base == shape[s].infoIdx
      modifies this
      ensures version == old(version) && SameShape(shape, decoded)
      ensures AllValid(old(decoded), Positions(shape, s, i))
      ensures failure.None? ==> && AllValid(decoded, Positions(shape, s, i + 1))
                                && LinkSeq(old(State()), ctx, Positions(shape, s, i))
                                   == LinkSeq(State(), ctx, Positions(shape, s, i + 1))
      ensures failure.Some? ==> LinkSeq(old(State()), ctx, Positions(shape, s, i)) == Err(failure.value)
    {
      var p := EntryRef(s, i);
      ghost var ps := Positions(shape, s, i);
      PositionsHead(shape, decoded, s, i);
      ResolveAtShape(shape, decoded, ctx, s, i);
      var link := Resolve(ctx, base + i);
      if link.Err? {
        LinkStepErr(State(), ctx, ps);
        return Some(link.error);
      }
      LinkStepOk(State(), ctx, ps);
      LinkEntryAt(ctx, p, link.value);
      return None;
    }

    /** One turn of the inner link loop once both lookups succeeded: store the
        INFO record and the transform (and in the legacy format the name) in the
        entry, then index it by its gimmick key and, in the modern format, by
        its bdat key. */
    method LinkEntryAt(ctx: Ctx, p: EntryRef, l: Link)
      requires CtxValid(ctx) && ValidRef(decoded, p) && ResolveAt(ctx, decoded, p) == Ok(l)
      modifies this
      ensures version == old(version)
      ensures State() == LinkEntry(old(State()), ctx, p).value
    {
      LinkEntryOk(State(), ctx, p, l);
      decoded := Update(decoded, p, Linked(At(decoded, p), l, ctx.xc3));
      gimmickMap := gimmickMap[GimmickKey(l, ctx.xc3) := p];
      if ctx.xc3 {
        gimmickBdatMap := gimmickBdatMap[BdatKey(l) := p];
      }
    }

    /** The debug-name overlay: each record whose `gimmick_id` is a key of the
        gimmick map renames that entry to its string. */
    method OverlayDebugNames(strings: Strings, ds: seq<DebugRecord>) returns (failure: Option<Error>)
      requires Valid()
      modifies this
      ensures version == old(version) && Valid()
      ensures failure.None? <==> OverlaySeq(old(State()), strings, ds).Ok?
      ensures failure.None? ==> State() == OverlaySeq(old(State()), strings, ds).value
      ensures failure.Some? ==> failure.value == OverlaySeq(old(State()), strings, ds).error
    {
      ghost var all := OverlaySeq(State(), strings, ds);
      var j := 0;
      while j < |ds|
        invariant 0 <= j <= |ds| && Valid() && version == old(version)
        invariant all == OverlaySeq(State(), strings, ds[j..])
      {
        OverlaySeqCons(State(), strings, ds[j..]);
        assert ds[j..][0] == ds[j] && ds[j..][1..] == ds[j + 1..];
        failure := OverlayRecord(strings, ds[j]);
        if failure.Some? {
          return;
        }
        j := j + 1;
      }
      return None;
    }

    /** One turn of the overlay loop: a record whose `gimmick_id` is a key of
        the gimmick map renames that entry to the record's string; any other
        record is skipped. */
    method OverlayRecord(strings: Strings, d: DebugRecord) returns (failure: Option<Error>)
      requires Valid()
      modifies this
      ensures version == old(version) && Valid()
      ensures failure.None? <==> OverlayEntry(old(State()), strings, d).Ok?
      ensures failure.None? ==> State() == OverlayEntry(old(State()), strings, d).value
      ensures failure.Some? ==> failure.value == OverlayEntry(old(State()), strings, d).error
    {
      var key := HashKey(d.gimmickId);
      if key in gimmickMap {
        var p := gimmickMap[key];
        var name := ReadString(strings, d.stringId);
        if name.Err? {
          return Some(name.error);
        }
        decoded := Update(decoded, p, At(decoded, p).(name := Some(name.value)));
      }
      return None;
    }

    /** The section walk over the body of `data` that the header describes:
      `data[32:file_size]`, walked up to `file_size - 32`, in the format the
      header's version selects. */
  function BodyWalk(data: bytes, header: Header, ext: ExtLookup): Result<seq<Section>> {
    Walk(SectionDecoder(Slice(data, FILE_HEADER_SIZE, header.fileSize), IsModern(header.version), ext),
         header.fileSize - FILE_HEADER_SIZE, 0)
  }

  /** The INFO, XFRM and STRG sections the construction requires are all present. */
  predicate RequiredPresent(secs: seq<Section>) {
    FindFirst(secs, INFO).Some? && FindFirst(secs, XFRM).Some? && FindFirst(secs, STRG).Some?
  }

  /** `Lvb.__init__` up to the link loop: the header, the section walk, and
        the INFO, XFRM and STRG lookups; DEBI is optional. */
    static method Begin(data: bytes, ext: ExtLookup) returns (r: Result<Plan>)
      ensures r == Prepare(data, ext)
    {
      var header := ParseHeader(data);
      if header.Err? {
        return Err(header.error);
      }
      var xc3 := IsModern(header.value.version);
      var fileSize := header.value.fileSize;
      var body := Slice(data, FILE_HEADER_SIZE, fileSize);
      var walked := WalkSections(SectionDecoder(body, xc3, ext), fileSize - FILE_HEADER_SIZE);
      if walked.Err? {
        return Err(walked.error);
      }
      var secs := walked.value;
      WalkWellDecoded(body, fileSize - FILE_HEADER_SIZE, xc3, ext, secs);
      var info := Required(secs, INFO);
      if info.Err? {
        return Err(info.error);
      }
      var xfrm := Required(secs, XFRM);
      if xfrm.Err? {
        return Err(xfrm.error);
      }
      var strg := Required(secs, STRG);
      if strg.Err? {
        return Err(strg.error);
      }
      var ctx := ContextOf(secs, xc3, ext, info.value, xfrm.value, strg.value);
      return Ok(Plan(header.value, secs, ctx, DebugOf(secs, xc3, ext)));
    }

    /** `Lvb(data)`: header, walk, lookups, then the link loop and the overlay;
        the first failing step aborts the construction. */
    static method Load(data: bytes, ext: ExtLookup) returns (r: Result<Lvb>)
      ensures r.Ok? <==> Parse(data, ext).Ok?
      ensures r.Ok? ==> fresh(r.value) && r.value.Valid() && r.value.Model() == Parse(data, ext).value
      ensures r.Err? ==> r.error == Parse(data, ext).error
    {
      var plan := Begin(data, ext);
      if plan.Err? {
        return Err(plan.error);
      }
      var ctx := plan.value.ctx;
      var lvb := new Lvb(plan.value.header.version, plan.value.sections);
      var failure := lvb.Link(ctx);
      if failure.Some? {
        return Err(failure.value);
      }
      failure := lvb.OverlayDebugNames(ctx.strings, plan.value.debug);
      if failure.Some? {
        return Err(failure.value);
      }
      return Ok(lvb);
    }

    /** `Lvb.section`: the first retained section with the magic, if any. A
        special magic is never found; any other finds the first decoded
        section with that magic. */
    function FindSection(magic: bytes): (r: Option<Sections.Section>)
      reads this
      ensures r == Model().Section(magic)
      ensures IsSpecial(magic) ==> r.None?
      ensures !IsSpecial(magic) ==> r == FirstWith(decoded, magic)
    {
      RetainedFirst(decoded, magic);
      FirstWith(Retained(decoded), magic)
    }

    /** `Lvb.gimmick`: the entry the gimmick map holds for the key, if any. */
    function Gimmick(key: Key): (r: Option<Entry>)
      reads this
      requires Valid()
      ensures r.Some? <==> key in gimmickMap
      ensures r.Some? ==> r.value == At(decoded, gimmickMap[key])
    {
      if key in gimmickMap then Some(At(decoded, gimmickMap[key])) else None
    }

    /** `Lvb.bdat_gimmick`: the entry the bdat map holds for the key, if any. */
    function BdatGimmick(key: Key): (r: Option<Entry>)
      reads this
      requires Valid()
      ensures r.Some? <==> key in gimmickBdatMap
      ensures r.Some? ==> r.value == At(decoded, gimmickBdatMap[key])
    {
      if key in gimmickBdatMap then Some(At(decoded, gimmickBdatMap[key])) else None
    }
  }

  /** The overlay handles the first record, then the rest. */
  lemma OverlaySeqCons(st: LinkState, strings: Strings, ds: seq<DebugRecord>)
    requires ValidMaps(st) && ds != []
    ensures OverlayEntry(st, strings, ds[0]).Err? ==>
              OverlaySeq(st, strings, ds) == Err(OverlayEntry(st, strings, ds[0]).error)
    ensures OverlayEntry(st, strings, ds[0]).Ok? ==>
              OverlaySeq(st, strings, ds) == OverlaySeq(OverlayEntry(st, strings, ds[0]).value, strings, ds[1..])
  {
  }

  /** Entry `i` of an ordinary section `s` is the next position visited. */
  lemma PositionsHead(shape: seq<Sections.Section>, secs: seq<Sections.Section>, s: nat, i: nat)
    requires s < |shape| && i < |shape[s].entries| && !IsSpecial(shape[s].magic)
    requires SameShape(shape, secs)
    ensures var ps := Positions(shape, s, i);
            && ps != [] && ps[0] == EntryRef(s, i) && ps[1..] == Positions(shape, s, i + 1)
            && AllValid(secs, ps)
  {
    var ps := Positions(shape, s, i);
    assert ps == [EntryRef(s, i)] + Positions(shape, s, i + 1);
    SameBase(shape, secs, ps);
  }

  /** The lookups for entry `i` of section `s` use INFO index `info_idx + i`. */
  lemma ResolveAtShape(shape: seq<Sections.Section>, secs: seq<Sections.Section>, ctx: Ctx, s: nat, i: nat)
    requires CtxValid(ctx) && s < |shape| && i < |shape[s].entries| && SameShape(shape, secs)
    ensures ValidRef(secs, EntryRef(s, i))
    ensures ResolveAt(ctx, secs, EntryRef(s, i)) == Resolve(ctx, shape[s].infoIdx + i)
  {
    assert Base(secs, EntryRef(s, i)) == shape[s].infoIdx + i;
  }

  /** A failing lookup for the next position ends the link phase with its error. */
  lemma LinkStepErr(st: LinkState, ctx: Ctx, ps: seq<EntryRef>)
    requires CtxValid(ctx) && AllValid(st.sections, ps) && ps != []
    requires ResolveAt(ctx, st.sections, ps[0]).Err?
    ensures LinkSeq(st, ctx, ps) == Err(ResolveAt(ctx, st.sections, ps[0]).error)
  {
  }

  /** A successful lookup for the next position links and indexes that entry,
      and the phase goes on with the rest. */
  lemma LinkStepOk(st: LinkState, ctx: Ctx, ps: seq<EntryRef>)
    requires CtxValid(ctx) && AllValid(st.sections, ps) && ps != []
    requires ResolveAt(ctx, st.sections, ps[0]).Ok?
    ensures LinkEntry(st, ctx, ps[0]).Ok?
    ensures var next := LinkEntry(st, ctx, ps[0]).value;
            && SameShape(st.sections, next.sections)
            && AllValid(next.sections, ps[1..])
            && LinkSeq(st, ctx, ps) == LinkSeq(next, ctx, ps[1..])
  {
    var next := LinkEntry(st, ctx, ps[0]).value;
    SameBase(st.sections, next.sections, ps);
  }
}
