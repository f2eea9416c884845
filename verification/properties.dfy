/** What a successful construction guarantees about the decoded container. */
module ContainerProperties {
  import opened Bytes
  import opened Outcomes
  import opened Payloads
  import opened Sections
  import opened Keys
  import opened Walker
  import opened Resolver
  import opened Container

  /** Construction fails on a missing `LVLB` signature, and a container that
      decodes had the signature and a complete 16-byte header. */
  lemma ParseSignature(data: bytes, ext: ExtLookup)
    ensures !(|data| >= 4 && data[..4] == LVLB) ==> Parse(data, ext) == Err(BadSignature)
    ensures Parse(data, ext).Ok? ==> |data| >= 16 && data[..4] == LVLB
  {
  }

  /** The phases of a successful construction: prepare, link every ordinary
      entry, overlay the debug names. */
  lemma ParsePhases(data: bytes, ext: ExtLookup)
    requires Parse(data, ext).Ok?
    ensures Prepare(data, ext).Ok?
    ensures var plan := Prepare(data, ext).value;
            var start := LinkState(plan.sections, map[], map[]);
            && LinkAll(start, plan.ctx).Ok?
            && ValidMaps(LinkAll(start, plan.ctx).value)
            && OverlaySeq(LinkAll(start, plan.ctx).value, plan.ctx.strings, plan.debug).Ok?
            && Parse(data, ext).value
               == Decoded(plan.header.version, OverlaySeq(LinkAll(start, plan.ctx).value, plan.ctx.strings, plan.debug).value)
  {
    var plan := Prepare(data, ext).value;
    var start := LinkState(plan.sections, map[], map[]);
    LinkSeqValidMaps(start, plan.ctx, Positions(plan.sections, 0, 0));
  }

  /** Entry `e` at position `q` as the link phase leaves it: the payload as
      decoded, and for an ordinary section the INFO record at
      `info_idx + index` and the transform that record's `xfrm_idx` selects;
      the entries of special sections are never linked. */
  predicate LinkedAsSelected(plan: Plan, q: EntryRef, e: Entry)
    requires ValidRef(plan.sections, q)
  {
    var b := Base(plan.sections, q);
    && e.mapped == At(plan.sections, q).mapped
    && if IsSpecial(plan.sections[q.section].magic) then e.info.None? && e.xfrm.None?
       else && b < |plan.ctx.infos| && e.info == Some(plan.ctx.infos[b])
            && plan.ctx.infos[b].xfrmIdx < |plan.ctx.xforms|
            && e.xfrm == Some(plan.ctx.xforms[plan.ctx.infos[b].xfrmIdx])
  }

  /** After construction every entry is linked as its INFO index selects. */
  lemma ParseLinks(data: bytes, ext: ExtLookup)
    requires Parse(data, ext).Ok?
    ensures Prepare(data, ext).Ok?
    ensures var plan, secs := Prepare(data, ext).value, Parse(data, ext).value.state.sections;
            && SameShape(plan.sections, secs)
            && forall q | ValidRef(plan.sections, q) :: LinkedAsSelected(plan, q, At(secs, q))
  {
    ParsePhases(data, ext);
    var plan := Prepare(data, ext).value;
    var start := LinkState(plan.sections, map[], map[]);
    var linked := LinkAll(start, plan.ctx).value;
    var secs := Parse(data, ext).value.state.sections;
    LinkAllEntries(start, plan.ctx);
    OverlayNames(linked, plan.ctx.strings, plan.debug);
    forall q | ValidRef(plan.sections, q)
      ensures LinkedAsSelected(plan, q, At(secs, q))
    {
      ResolveSpec(plan.ctx, Base(plan.sections, q));
      assert At(plan.sections, q) in plan.sections[q.section].entries;
      assert At(secs, q).(name := At(linked.sections, q).name) == At(linked.sections, q);
    }
  }

  /** Legacy format: every ordinary entry is named by the string at its INFO
      record's `name_id`. */
  ghost predicate LegacyNamed(plan: Plan, st: LinkState)
    requires CtxValid(plan.ctx) && !plan.ctx.xc3 && SameShape(plan.sections, st.sections)
  {
    forall q | ValidRef(plan.sections, q) && !IsSpecial(plan.sections[q.section].magic) ::
      && Base(plan.sections, q) < |plan.ctx.infos|
      && plan.ctx.strings.Read(plan.ctx.infos[Base(plan.sections, q)].nameId).Some?
      && At(st.sections, q).name == plan.ctx.strings.Read(plan.ctx.infos[Base(plan.sections, q)].nameId)
  }

  /** Modern format: an entry no debug record names has no name, and an entry
      named by some records has the string of the last of them. */
  ghost predicate ModernNamed(plan: Plan, st: LinkState)
    requires SameShape(plan.sections, st.sections)
  {
    && (forall q | ValidRef(plan.sections, q) &&
                   (forall j :: 0 <= j < |plan.debug| ==> Target(st.gimmicks, plan.debug[j]) != Some(q)) ::
          At(st.sections, q).name.None?)
    && (forall j | && 0 <= j < |plan.debug| && Target(st.gimmicks, plan.debug[j]).Some?
                   && (forall j' :: j < j' < |plan.debug| ==> Target(st.gimmicks, plan.debug[j']) != Target(st.gimmicks, plan.debug[j])) ::
          && ValidRef(st.sections, Target(st.gimmicks, plan.debug[j]).value)
          && At(st.sections, Target(st.gimmicks, plan.debug[j]).value).name
             == plan.ctx.strings.Read(plan.debug[j].stringId))
  }

  /** The names `st` holds, as the selections of `plan` determine them. */
  ghost predicate NamedAsSelected(plan: Plan, st: LinkState)
    requires CtxValid(plan.ctx)
  {
    && SameShape(plan.sections, st.sections)
    && (!plan.ctx.xc3 ==> LegacyNamed(plan, st))
    && (plan.ctx.xc3 ==> ModernNamed(plan, st))
  }

  /** Names after construction. In the legacy format an ordinary entry's name
      is the string at its INFO record's `name_id`. In the modern format an
      entry no debug record names has no name, and an entry named by some
      records has the string of the last of them. */
  lemma ParseNames(data: bytes, ext: ExtLookup)
    requires Parse(data, ext).Ok?
    ensures Prepare(data, ext).Ok?
    ensures NamedAsSelected(Prepare(data, ext).value, Parse(data, ext).value.state)
  {
    ParsePhases(data, ext);
    var plan := Prepare(data, ext).value;
    PlanNames(plan, ext, Parse(data, ext).value.state);
  }

  /** `ParseNames` for a prepared container and the state its link phase and
      overlay leave. */
  lemma PlanNames(plan: Plan, ext: ExtLookup, st: LinkState)
    requires CtxValid(plan.ctx) && (!plan.ctx.xc3 ==> plan.debug == [])
    requires forall k :: 0 <= k < |plan.sections| ==> WellDecoded(plan.sections[k], plan.ctx.xc3, ext)
    requires var start := LinkState(plan.sections, map[], map[]);
             && LinkAll(start, plan.ctx).Ok? && ValidMaps(LinkAll(start, plan.ctx).value)
             && OverlaySeq(LinkAll(start, plan.ctx).value, plan.ctx.strings, plan.debug) == Ok(st)
    ensures NamedAsSelected(plan, st)
  {
    var linked := LinkAll(LinkState(plan.sections, map[], map[]), plan.ctx).value;
    LinkedNames(plan, ext);
    if plan.ctx.xc3 {
      OverlaidNames(plan, linked, st);
    } else {
      assert st == linked;
    }
  }

  /** Modern format: the overlay names exactly the entries its records target,
      each with the last targeting record's string, over entries the link
      phase left unnamed. */
  lemma OverlaidNames(plan: Plan, linked: LinkState, st: LinkState)
    requires SameShape(plan.sections, linked.sections) && ValidMaps(linked)
    requires forall q | ValidRef(plan.sections, q) :: At(linked.sections, q).name.None?
    requires OverlaySeq(linked, plan.ctx.strings, plan.debug) == Ok(st)
    ensures SameShape(plan.sections, st.sections) && ModernNamed(plan, st)
  {
    OverlayNames(linked, plan.ctx.strings, plan.debug);
  }

  /** The names the link phase leaves: none in the modern format or in a
      special section, otherwise the string at the INFO record's `name_id`. */
  lemma LinkedNames(plan: Plan, ext: ExtLookup)
    requires CtxValid(plan.ctx)
    requires forall k :: 0 <= k < |plan.sections| ==> WellDecoded(plan.sections[k], plan.ctx.xc3, ext)
    requires LinkAll(LinkState(plan.sections, map[], map[]), plan.ctx).Ok?
    ensures var linked := LinkAll(LinkState(plan.sections, map[], map[]), plan.ctx).value;
            && SameShape(plan.sections, linked.sections)
            && forall q | ValidRef(plan.sections, q) ::
                 if plan.ctx.xc3 || IsSpecial(plan.sections[q.section].magic) then At(linked.sections, q).name.None?
                 else && Base(plan.sections, q) < |plan.ctx.infos|
                      && plan.ctx.strings.Read(plan.ctx.infos[Base(plan.sections, q)].nameId).Some?
                      && At(linked.sections, q).name == plan.ctx.strings.Read(plan.ctx.infos[Base(plan.sections, q)].nameId)
  {
    var start := LinkState(plan.sections, map[], map[]);
    LinkAllEntries(start, plan.ctx);
    var linked := LinkAll(start, plan.ctx).value;
    forall q | ValidRef(plan.sections, q)
      ensures if plan.ctx.xc3 || IsSpecial(plan.sections[q.section].magic) then At(linked.sections, q).name.None?
              else && Base(plan.sections, q) < |plan.ctx.infos|
                   && plan.ctx.strings.Read(plan.ctx.infos[Base(plan.sections, q)].nameId).Some?
                   && At(linked.sections, q).name == plan.ctx.strings.Read(plan.ctx.infos[Base(plan.sections, q)].nameId)
    {
      ResolveSpec(plan.ctx, Base(plan.sections, q));
      assert At(plan.sections, q) in plan.sections[q.section].entries;
    }
  }

  /** The maps after construction: every ordinary entry, in file order, is
      stored in the gimmick map under its key (its hash id, or in the legacy
      format its name) and, in the modern format only, in the bdat map under
      its bdat id; the overlay changes neither map. */
  lemma ParseMaps(data: bytes, ext: ExtLookup)
    requires Parse(data, ext).Ok?
    ensures Prepare(data, ext).Ok?
    ensures var plan, st := Prepare(data, ext).value, Parse(data, ext).value.state;
            var ps := Positions(plan.sections, 0, 0);
            && (forall j :: 0 <= j < |ps| ==> ResolveAt(plan.ctx, plan.sections, ps[j]).Ok?)
            && st.gimmicks == Indexed(map[], GimmickKeys(plan.sections, plan.ctx, ps), ps)
            && st.bdat == if plan.ctx.xc3 then Indexed(map[], BdatKeys(plan.sections, plan.ctx, ps), ps) else map[]
  {
    ParsePhases(data, ext);
    var plan := Prepare(data, ext).value;
    LinkSeqMaps(LinkState(plan.sections, map[], map[]), plan.ctx, Positions(plan.sections, 0, 0));
  }
}
