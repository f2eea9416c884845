/** The cross-reference phase of `Lvb.__init__`: linking every entry of an
    ordinary section to its INFO record and transform, indexing it by hash, bdat
    id or name, and overlaying the debug names of DEBI.

    The decoded sections form one arena. An entry is named by its position
    (`EntryRef`), so the index maps, which in the program hold the very `Entry`
    objects the sections hold, here hold positions into the same arena: an
    update through a map is seen by the section and the other map alike. */
module Resolver {
  import opened Bytes
  import opened Outcomes
  import opened Payloads
  import opened Sections
  import opened Keys

  /** An entry of the arena: entry `index` of section `section`. */
  datatype EntryRef = EntryRef(section: nat, index: nat)

  predicate ValidRef(secs: seq<Section>, p: EntryRef) {
    p.section < |secs| && p.index < |secs[p.section].entries|
  }

  function At(secs: seq<Section>, p: EntryRef): Entry
    requires ValidRef(secs, p)
  {
    secs[p.section].entries[p.index]
  }

  /** The same sections with the same headers and entry counts; only the
      linked fields of the entries may differ. */
  predicate SameShape(a: seq<Section>, b: seq<Section>) {
    && |a| == |b|
    && forall s :: 0 <= s < |a| ==>
         && a[s].magic == b[s].magic
         && a[s].size == b[s].size
         && a[s].infoIdx == b[s].infoIdx
         && |a[s].entries| == |b[s].entries|
  }

  /** The arena with the entry at `p` replaced by `e`. */
  function Update(secs: seq<Section>, p: EntryRef, e: Entry): (r: seq<Section>)
    requires ValidRef(secs, p)
    ensures SameShape(secs, r)
    ensures At(r, p) == e
    ensures forall q :: ValidRef(secs, q) && q != p ==> At(r, q) == At(secs, q)
  {
    var sec := secs[p.section];
    secs[p.section := sec.(entries := sec.entries[p.index := e])]
  }

  /** The INFO index of an entry: its section's `info_idx` plus its own index. */
  function Base(secs: seq<Section>, p: EntryRef): nat
    requires ValidRef(secs, p)
  {
    secs[p.section].infoIdx + p.index
  }

  /** What the link phase reads: the format flag, the records of the first INFO
      and XFRM sections, and the blob of the first STRG section. */
  datatype Ctx = Ctx(xc3: bool, infos: seq<InfoRecord>, xforms: seq<Xform>, strings: Strings)

  /** INFO holds modern records exactly in the modern format. */
  predicate CtxValid(ctx: Ctx) {
    forall k :: 0 <= k < |ctx.infos| ==> (ctx.infos[k].Info? <==> ctx.xc3)
  }

  /** `strings.read(offset)`, failing when no zero byte ends the string. */
  function ReadString(strings: Strings, offset: nat): (r: Result<bytes>)
    ensures r.Ok? <==> strings.Read(offset).Some?
    ensures r.Ok? ==> r.value == strings.Read(offset).value
    ensures r.Err? ==> r.error == UnterminatedString(offset)
  {
    match strings.Read(offset)
    case Some(text) => Ok(text)
    case None => Err(UnterminatedString(offset))
  }

  /** What one entry is linked to: its INFO record, its transform and, in the
      legacy format, its name. */
  datatype Link = Link(info: InfoRecord, xfrm: Xform, name: Option<bytes>)

  /** A link as the resolver produces it for the format. */
  predicate Fits(l: Link, xc3: bool) {
    if xc3 then l.info.Info? else l.name.Some?
  }

  /** The lookups for the entry whose INFO index is `index`, in the program's
      order: `info.entry(index)`, then `xfrm.entry(info.xfrm_idx)`, then (legacy
      format) `strings.read(info.name_id)`. */
  function Resolve(ctx: Ctx, index: nat): (r: Result<Link>)
    requires CtxValid(ctx)
    ensures r.Ok? ==> Fits(r.value, ctx.xc3) && (ctx.xc3 ==> r.value.info.Info?)
  {
    if index >= |ctx.infos| then Err(UnresolvedInfo(index))
    else
      var info := ctx.infos[index];
      if info.xfrmIdx >= |ctx.xforms| then Err(UnresolvedXform(info.xfrmIdx))
      else if ctx.xc3 then Ok(Link(info, ctx.xforms[info.xfrmIdx], None))
      else
        var name :- ReadString(ctx.strings, info.nameId);
        Ok(Link(info, ctx.xforms[info.xfrmIdx], Some(name)))
  }

  /** `Resolve` fails with the first lookup that fails: an INFO index past the
      end of INFO, then a transform index past the end of XFRM, then (legacy
      format) a name offset with no terminating zero; otherwise the link holds
      the INFO record, the transform it selects and the name read at its
      `name_id`. */
  lemma ResolveSpec(ctx: Ctx, index: nat)
    requires CtxValid(ctx)
    ensures var r := Resolve(ctx, index);
            && (r == Err(UnresolvedInfo(index)) <==> index >= |ctx.infos|)
            && (index < |ctx.infos| ==>
                  var info := ctx.infos[index];
                  && (r == Err(UnresolvedXform(info.xfrmIdx)) <==> info.xfrmIdx >= |ctx.xforms|)
                  && (r.Ok? <==> info.xfrmIdx < |ctx.xforms| && (!ctx.xc3 ==> ctx.strings.Read(info.nameId).Some?))
                  && (!ctx.xc3 && info.xfrmIdx < |ctx.xforms| && ctx.strings.Read(info.nameId).None? ==>
                        r == Err(UnterminatedString(info.nameId)))
                  && (r.Ok? ==> && r.value.info == info
                                && r.value.xfrm == ctx.xforms[info.xfrmIdx]
                                && r.value.name == if ctx.xc3 then None else ctx.strings.Read(info.nameId)))
  {
  }

  /** The `gimmick_map` key: the hash id in the modern format, the name in the
      legacy one. */
  function GimmickKey(l: Link, xc3: bool): Key
    requires Fits(l, xc3)
  {
    if xc3 then HashKey(l.info.hashId) else NameKey(l.name.value)
  }

  /** The `gimmick_bdat_map` key of a modern link. */
  function BdatKey(l: Link): Key
    requires l.info.Info?
  {
    HashKey(l.info.bdatId)
  }

  /** An entry after linking: info and transform set, and in the legacy format
      the name; the payload is untouched. */
  function Linked(e: Entry, l: Link, xc3: bool): (r: Entry)
    ensures r.mapped == e.mapped && r.info == Some(l.info) && r.xfrm == Some(l.xfrm)
    ensures r.name == if xc3 then e.name else l.name
  {
    e.(info := Some(l.info), xfrm := Some(l.xfrm), name := if xc3 then e.name else l.name)
  }

  /** The arena and the two index maps while the resolver runs. */
  datatype LinkState = LinkState(sections: seq<Section>, gimmicks: map<Key, EntryRef>, bdat: map<Key, EntryRef>)

  /** Every key of either map names an entry of the arena. */
  predicate ValidMaps(st: LinkState) {
    && (forall k | k in st.gimmicks :: ValidRef(st.sections, st.gimmicks[k]))
    && (forall k | k in st.bdat :: ValidRef(st.sections, st.bdat[k]))
  }

  predicate AllValid(secs: seq<Section>, ps: seq<EntryRef>) {
    forall j :: 0 <= j < |ps| ==> ValidRef(secs, ps[j])
  }

  /** The link for the entry at `p`. */
  function ResolveAt(ctx: Ctx, secs: seq<Section>, p: EntryRef): Result<Link>
    requires CtxValid(ctx) && ValidRef(secs, p)
  {
    Resolve(ctx, Base(secs, p))
  }

  /** One turn of the inner linking loop, for the entry at `p`. */
  function LinkEntry(st: LinkState, ctx: Ctx, p: EntryRef): (r: Result<LinkState>)
    requires CtxValid(ctx) && ValidRef(st.sections, p)
    ensures r.Ok? <==> ResolveAt(ctx, st.sections, p).Ok?
    ensures r.Err? ==> r.error == ResolveAt(ctx, st.sections, p).error
    ensures r.Ok? ==> SameShape(st.sections, r.value.sections)
  {
    var l :- ResolveAt(ctx, st.sections, p);
    var secs := Update(st.sections, p, Linked(At(st.sections, p), l, ctx.xc3));
    if ctx.xc3 then
      Ok(LinkState(secs, st.gimmicks[GimmickKey(l, true) := p], st.bdat[BdatKey(l) := p]))
    else
      Ok(LinkState(secs, st.gimmicks[GimmickKey(l, false) := p], st.bdat))
  }

  /** The new state after linking the entry at `p` when its lookups succeed. */
  lemma LinkEntryOk(st: LinkState, ctx: Ctx, p: EntryRef, l: Link)
    requires CtxValid(ctx) && ValidRef(st.sections, p) && ResolveAt(ctx, st.sections, p) == Ok(l)
    ensures Fits(l, ctx.xc3) && (ctx.xc3 ==> l.info.Info?)
    ensures LinkEntry(st, ctx, p) == Ok(LinkState(
              Update(st.sections, p, Linked(At(st.sections, p), l, ctx.xc3)),
              st.gimmicks[GimmickKey(l, ctx.xc3) := p],
              if ctx.xc3 then st.bdat[BdatKey(l) := p] else st.bdat))
  {
  }

  /** Entry positions and INFO indices depend only on the shape of the arena. */
  lemma SameBase(a: seq<Section>, b: seq<Section>, ps: seq<EntryRef>)
    requires SameShape(a, b) && AllValid(a, ps)
    ensures AllValid(b, ps)
    ensures forall j :: 0 <= j < |ps| ==> Base(a, ps[j]) == Base(b, ps[j])
  {
  }

  /** Linking the entries at `ps` in order; the first failing lookup aborts. */
  function LinkSeq(st: LinkState, ctx: Ctx, ps: seq<EntryRef>): (r: Result<LinkState>)
    requires CtxValid(ctx) && AllValid(st.sections, ps)
    ensures r.Ok? ==> SameShape(st.sections, r.value.sections)
    decreases |ps|
  {
    if ps == [] then Ok(st)
    else
      var next :- LinkEntry(st, ctx, ps[0]);
      SameBase(st.sections, next.sections, ps);
      LinkSeq(next, ctx, ps[1..])
  }

  /** Linking succeeds iff every lookup does. */
  lemma {:induction false} LinkSeqOk(st: LinkState, ctx: Ctx, ps: seq<EntryRef>)
    requires CtxValid(ctx) && AllValid(st.sections, ps)
    ensures LinkSeq(st, ctx, ps).Ok? <==> forall j :: 0 <= j < |ps| ==> ResolveAt(ctx, st.sections, ps[j]).Ok?
    decreases |ps|
  {
    if ps != [] && LinkEntry(st, ctx, ps[0]).Ok? {
      var next := LinkEntry(st, ctx, ps[0]).value;
      SameBase(st.sections, next.sections, ps);
      LinkSeqOk(next, ctx, ps[1..]);
      OkShift(st.sections, next.sections, ctx, ps);
    }
  }

  lemma OkShift(a: seq<Section>, b: seq<Section>, ctx: Ctx, ps: seq<EntryRef>)
    requires CtxValid(ctx) && AllValid(a, ps) && AllValid(b, ps) && ps != []
    requires forall k :: 0 <= k < |ps| ==> Base(a, ps[k]) == Base(b, ps[k])
    requires ResolveAt(ctx, a, ps[0]).Ok?
    ensures (forall j :: 0 <= j < |ps| - 1 ==> ResolveAt(ctx, b, ps[1..][j]).Ok?)
            <==> (forall j :: 0 <= j < |ps| ==> ResolveAt(ctx, a, ps[j]).Ok?)
  {
    assert forall j :: 1 <= j < |ps| ==> ps[1..][j - 1] == ps[j];
  }

  /** A failing link phase fails with the error of the first failing lookup in
      visiting order. */
  lemma {:induction false} LinkSeqFirstError(st: LinkState, ctx: Ctx, ps: seq<EntryRef>)
    requires CtxValid(ctx) && AllValid(st.sections, ps)
    requires LinkSeq(st, ctx, ps).Err?
    ensures exists j :: && 0 <= j < |ps| && ResolveAt(ctx, st.sections, ps[j]).Err?
                        && LinkSeq(st, ctx, ps).error == ResolveAt(ctx, st.sections, ps[j]).error
                        && forall j' :: 0 <= j' < j ==> ResolveAt(ctx, st.sections, ps[j']).Ok?
    decreases |ps|
  {
    if LinkEntry(st, ctx, ps[0]).Ok? {
      var next := LinkEntry(st, ctx, ps[0]).value;
      SameBase(st.sections, next.sections, ps);
      LinkSeqFirstError(next, ctx, ps[1..]);
      var j :| && 0 <= j < |ps| - 1 && ResolveAt(ctx, next.sections, ps[1..][j]).Err?
               && LinkSeq(next, ctx, ps[1..]).error == ResolveAt(ctx, next.sections, ps[1..][j]).error
               && forall j' :: 0 <= j' < j ==> ResolveAt(ctx, next.sections, ps[1..][j']).Ok?;
      FirstErrorShift(st.sections, next.sections, ctx, ps, j);
    } else {
      assert ResolveAt(ctx, st.sections, ps[0]).Err?;
    }
  }

  lemma FirstErrorShift(a: seq<Section>, b: seq<Section>, ctx: Ctx, ps: seq<EntryRef>, j: nat)
    requires CtxValid(ctx) && AllValid(a, ps) && AllValid(b, ps) && 0 <= j < |ps| - 1
    requires forall k :: 0 <= k < |ps| ==> Base(a, ps[k]) == Base(b, ps[k])
    requires ResolveAt(ctx, a, ps[0]).Ok?
    requires forall j' :: 0 <= j' < j ==> ResolveAt(ctx, b, ps[1..][j']).Ok?
    ensures forall j' :: 0 <= j' < j + 1 ==> ResolveAt(ctx, a, ps[j']).Ok?
    ensures ps[1..][j] == ps[j + 1] && ResolveAt(ctx, b, ps[1..][j]) == ResolveAt(ctx, a, ps[j + 1])
  {
    forall j' | 0 < j' < j + 1
      ensures ResolveAt(ctx, a, ps[j']).Ok?
    {
      assert ps[1..][j' - 1] == ps[j'];
    }
  }

  lemma LinkEntryValidMaps(st: LinkState, ctx: Ctx, p: EntryRef)
    requires CtxValid(ctx) && ValidRef(st.sections, p) && ValidMaps(st) && LinkEntry(st, ctx, p).Ok?
    ensures ValidMaps(LinkEntry(st, ctx, p).value)
  {
    var l := ResolveAt(ctx, st.sections, p).value;
    LinkEntryOk(st, ctx, p, l);
    var next := LinkEntry(st, ctx, p).value;
    assert forall q :: ValidRef(st.sections, q) ==> ValidRef(next.sections, q);
  }

  /** The maps only ever point into the arena. */
  lemma {:induction false} LinkSeqValidMaps(st: LinkState, ctx: Ctx, ps: seq<EntryRef>)
    requires CtxValid(ctx) && AllValid(st.sections, ps) && ValidMaps(st)
    ensures LinkSeq(st, ctx, ps).Ok? ==> ValidMaps(LinkSeq(st, ctx, ps).value)
    decreases |ps|
  {
    if ps != [] {
      var first := LinkEntry(st, ctx, ps[0]);
      if first.Ok? {
        var next := first.value;
        LinkEntryValidMaps(st, ctx, ps[0]);
        SameBase(st.sections, next.sections, ps);
        LinkSeqValidMaps(next, ctx, ps[1..]);
      }
    }
  }

  /** The positions of the entries of every section whose magic is not special,
      in file order, from entry `i` of section `s` on. */
  function Positions(secs: seq<Section>, s: nat, i: nat): (ps: seq<EntryRef>)
    requires s <= |secs|
    ensures AllValid(secs, ps)
    decreases |secs| - s, if s < |secs| then |secs[s].entries| - i else 0
  {
    if s == |secs| then []
    else if IsSpecial(secs[s].magic) || i >= |secs[s].entries| then Positions(secs, s + 1, 0)
    else [EntryRef(s, i)] + Positions(secs, s, i + 1)
  }

  /** The positions the link phase visits: every entry of an ordinary section,
      and nothing else. */
  lemma {:induction false} PositionsComplete(secs: seq<Section>, s: nat, i: nat)
    requires s <= |secs|
    ensures forall p :: p in Positions(secs, s, i) <==>
              && ValidRef(secs, p) && !IsSpecial(secs[p.section].magic)
              && (p.section > s || (p.section == s && p.index >= i))
    decreases |secs| - s, if s < |secs| then |secs[s].entries| - i else 0
  {
    if s < |secs| {
      if IsSpecial(secs[s].magic) || i >= |secs[s].entries| {
        PositionsComplete(secs, s + 1, 0);
      } else {
        PositionsComplete(secs, s, i + 1);
      }
    }
  }

  /** `a` comes before `b` in the file. */
  predicate Before(a: EntryRef, b: EntryRef) {
    a.section < b.section || (a.section == b.section && a.index < b.index)
  }

  predicate InFileOrder(ps: seq<EntryRef>) {
    forall a, b :: 0 <= a < b < |ps| ==> Before(ps[a], ps[b])
  }

  /** The positions come in file order, each once. */
  lemma {:induction false} PositionsOrdered(secs: seq<Section>, s: nat, i: nat)
    requires s <= |secs|
    ensures InFileOrder(Positions(secs, s, i))
    decreases |secs| - s, if s < |secs| then |secs[s].entries| - i else 0
  {
    if s < |secs| {
      if IsSpecial(secs[s].magic) || i >= |secs[s].entries| {
        PositionsOrdered(secs, s + 1, 0);
      } else {
        PositionsOrdered(secs, s, i + 1);
        PositionsComplete(secs, s, i + 1);
        var ps, rest := Positions(secs, s, i), Positions(secs, s, i + 1);
        assert ps == [EntryRef(s, i)] + rest;
        forall a, b | 0 <= a < b < |ps|
          ensures Before(ps[a], ps[b])
        {
          assert ps[b] == rest[b - 1];
          if a > 0 {
            assert ps[a] == rest[a - 1];
          } else {
            assert rest[b - 1] in rest;
          }
        }
      }
    }
  }

  /** The whole link phase over the arena as decoded. */
  function LinkAll(st: LinkState, ctx: Ctx): Result<LinkState>
    requires CtxValid(ctx)
  {
    LinkSeq(st, ctx, Positions(st.sections, 0, 0))
  }

  /** `after` is `before` with the entries at `ps` linked and no other change. */
  ghost predicate LinkedOnly(before: seq<Section>, after: seq<Section>, ctx: Ctx, ps: seq<EntryRef>)
    requires CtxValid(ctx) && SameShape(before, after)
  {
    forall q | ValidRef(before, q) ::
      At(after, q) == if q in ps && ResolveAt(ctx, before, q).Ok?
                      then Linked(At(before, q), ResolveAt(ctx, before, q).value, ctx.xc3)
                      else At(before, q)
  }

  lemma LinkEntryEntries(st: LinkState, ctx: Ctx, p: EntryRef)
    requires CtxValid(ctx) && ValidRef(st.sections, p) && LinkEntry(st, ctx, p).Ok?
    ensures LinkedOnly(st.sections, LinkEntry(st, ctx, p).value.sections, ctx, [p])
  {
  }

  /** Every linked entry gets the info and transform its INFO index selects (and
      in the legacy format its name); every other entry is left as it was. */
  lemma {:induction false} LinkSeqEntries(st: LinkState, ctx: Ctx, ps: seq<EntryRef>)
    requires CtxValid(ctx) && AllValid(st.sections, ps)
    requires LinkSeq(st, ctx, ps).Ok?
    ensures LinkedOnly(st.sections, LinkSeq(st, ctx, ps).value.sections, ctx, ps)
    decreases |ps|
  {
    if ps != [] {
      var next := LinkEntry(st, ctx, ps[0]).value;
      SameBase(st.sections, next.sections, ps);
      LinkEntryEntries(st, ctx, ps[0]);
      LinkSeqEntries(next, ctx, ps[1..]);
      LinkedOnlyCompose(st.sections, next.sections, LinkSeq(st, ctx, ps).value.sections, ctx, ps);
    }
  }

  /** Linking the first position and then the rest links them all: linking an
      entry twice has the effect of linking it once. */
  lemma LinkedOnlyCompose(a: seq<Section>, b: seq<Section>, c: seq<Section>, ctx: Ctx, ps: seq<EntryRef>)
    requires CtxValid(ctx) && ps != [] && SameShape(a, b) && SameShape(b, c)
    requires LinkedOnly(a, b, ctx, [ps[0]]) && LinkedOnly(b, c, ctx, ps[1..])
    ensures SameShape(a, c) && LinkedOnly(a, c, ctx, ps)
  {
    forall q | ValidRef(a, q)
      ensures At(c, q) == if q in ps && ResolveAt(ctx, a, q).Ok?
                          then Linked(At(a, q), ResolveAt(ctx, a, q).value, ctx.xc3)
                          else At(a, q)
    {
      assert Base(a, q) == Base(b, q);
      assert q in ps <==> q == ps[0] || q in ps[1..];
    }
  }

  /** After the whole link phase every entry of an ordinary section is linked
      to what its INFO index selects, and every entry of a special section is
      untouched. */
  lemma LinkAllEntries(st: LinkState, ctx: Ctx)
    requires CtxValid(ctx) && LinkAll(st, ctx).Ok?
    ensures SameShape(st.sections, LinkAll(st, ctx).value.sections)
    ensures forall q | ValidRef(st.sections, q) && !IsSpecial(st.sections[q.section].magic) ::
              && ResolveAt(ctx, st.sections, q).Ok?
              && At(LinkAll(st, ctx).value.sections, q)
                 == Linked(At(st.sections, q), ResolveAt(ctx, st.sections, q).value, ctx.xc3)
    ensures forall q | ValidRef(st.sections, q) && IsSpecial(st.sections[q.section].magic) ::
              At(LinkAll(st, ctx).value.sections, q) == At(st.sections, q)
  {
    var ps := Positions(st.sections, 0, 0);
    PositionsComplete(st.sections, 0, 0);
    LinkSeqOk(st, ctx, ps);
    LinkSeqEntries(st, ctx, ps);
    forall q | ValidRef(st.sections, q) && !IsSpecial(st.sections[q.section].magic)
      ensures ResolveAt(ctx, st.sections, q).Ok?
    {
      var j :| 0 <= j < |ps| && ps[j] == q;
    }
  }

  /** The keys the link phase files the entries at `ps` under, in order. */
  function GimmickKeys(secs: seq<Section>, ctx: Ctx, ps: seq<EntryRef>): (ks: seq<Key>)
    requires CtxValid(ctx) && AllValid(secs, ps)
    requires forall j :: 0 <= j < |ps| ==> ResolveAt(ctx, secs, ps[j]).Ok?
    ensures |ks| == |ps|
  {
    if ps == [] then []
    else [GimmickKey(ResolveAt(ctx, secs, ps[0]).value, ctx.xc3)] + GimmickKeys(secs, ctx, ps[1..])
  }

  function BdatKeys(secs: seq<Section>, ctx: Ctx, ps: seq<EntryRef>): (ks: seq<Key>)
    requires CtxValid(ctx) && ctx.xc3 && AllValid(secs, ps)
    requires forall j :: 0 <= j < |ps| ==> ResolveAt(ctx, secs, ps[j]).Ok?
    ensures |ks| == |ps|
  {
    if ps == [] then []
    else [BdatKey(ResolveAt(ctx, secs, ps[0]).value)] + BdatKeys(secs, ctx, ps[1..])
  }

  /** `m[ks[0]] = ps[0]; m[ks[1]] = ps[1]; ...`: dictionary stores in order. */
  function Indexed(m: map<Key, EntryRef>, ks: seq<Key>, ps: seq<EntryRef>): map<Key, EntryRef>
    requires |ks| == |ps|
    decreases |ps|
  {
    if ps == [] then m else Indexed(m[ks[0] := ps[0]], ks[1..], ps[1..])
  }

  /** After a run of stores a key is present iff it was or was stored; the last
      store to a key wins; keys never stored keep their old value. */
  lemma {:induction false} IndexedLastWins(m: map<Key, EntryRef>, ks: seq<Key>, ps: seq<EntryRef>)
    requires |ks| == |ps|
    decreases |ps|
    ensures forall k :: k in Indexed(m, ks, ps) <==> k in m || k in ks
    ensures forall j :: 0 <= j < |ks| && ks[j] !in ks[j + 1..] ==> Indexed(m, ks, ps)[ks[j]] == ps[j]
    ensures forall k :: k in m && k !in ks ==> Indexed(m, ks, ps)[k] == m[k]
  {
    if ps != [] {
      var m' := m[ks[0] := ps[0]];
      IndexedLastWins(m', ks[1..], ps[1..]);
      assert forall k :: k in ks <==> k == ks[0] || k in ks[1..];
      forall j | 0 <= j < |ks| && ks[j] !in ks[j + 1..]
        ensures Indexed(m, ks, ps)[ks[j]] == ps[j]
      {
        if j > 0 {
          assert ks[1..][j - 1] == ks[j] && ks[1..][j..] == ks[j + 1..];
        }
      }
    }
  }

  lemma LinkEntryMaps(st: LinkState, ctx: Ctx, p: EntryRef)
    requires CtxValid(ctx) && ValidRef(st.sections, p) && LinkEntry(st, ctx, p).Ok?
    ensures var l, r := ResolveAt(ctx, st.sections, p).value, LinkEntry(st, ctx, p).value;
            && r.gimmicks == st.gimmicks[GimmickKey(l, ctx.xc3) := p]
            && r.bdat == if ctx.xc3 then st.bdat[BdatKey(l) := p] else st.bdat
  {
  }

  /** The maps after linking `ps`: the gimmick map gets every entry under its
      key, the bdat map (modern format only) under its bdat id, in visiting
      order, so on a collision the later entry wins. */
  lemma {:induction false} LinkSeqMaps(st: LinkState, ctx: Ctx, ps: seq<EntryRef>)
    requires CtxValid(ctx) && AllValid(st.sections, ps)
    requires LinkSeq(st, ctx, ps).Ok?
    ensures forall j :: 0 <= j < |ps| ==> ResolveAt(ctx, st.sections, ps[j]).Ok?
    ensures var r := LinkSeq(st, ctx, ps).value;
            && r.gimmicks == Indexed(st.gimmicks, GimmickKeys(st.sections, ctx, ps), ps)
            && r.bdat == if ctx.xc3 then Indexed(st.bdat, BdatKeys(st.sections, ctx, ps), ps) else st.bdat
    decreases |ps|
  {
    LinkSeqOk(st, ctx, ps);
    if ps != [] {
      var next := LinkEntry(st, ctx, ps[0]).value;
      SameBase(st.sections, next.sections, ps);
      LinkEntryMaps(st, ctx, ps[0]);
      LinkSeqMaps(next, ctx, ps[1..]);
      KeysAgree(st.sections, next.sections, ctx, ps[1..]);
      assert LinkSeq(st, ctx, ps) == LinkSeq(next, ctx, ps[1..]);
    }
  }

  /** The keys depend only on the shape of the arena. */
  lemma {:induction false} KeysAgree(a: seq<Section>, b: seq<Section>, ctx: Ctx, ps: seq<EntryRef>)
    requires CtxValid(ctx) && AllValid(a, ps) && SameShape(a, b)
    requires forall j :: 0 <= j < |ps| ==> ResolveAt(ctx, a, ps[j]).Ok?
    ensures AllValid(b, ps) && forall j :: 0 <= j < |ps| ==> ResolveAt(ctx, b, ps[j]).Ok?
    ensures GimmickKeys(a, ctx, ps) == GimmickKeys(b, ctx, ps)
    ensures ctx.xc3 ==> BdatKeys(a, ctx, ps) == BdatKeys(b, ctx, ps)
    decreases |ps|
  {
    SameBase(a, b, ps);
    if ps != [] {
      KeysAgree(a, b, ctx, ps[1..]);
    }
  }

  /** The entry a debug record names, if its `gimmick_id` is a key of the map. */
  function Target(m: map<Key, EntryRef>, d: DebugRecord): Option<EntryRef> {
    if HashKey(d.gimmickId) in m then Some(m[HashKey(d.gimmickId)]) else None
  }

  /** One turn of the overlay loop: a record naming an unknown gimmick is
      skipped, otherwise the named entry's name becomes the record's string. */
  function OverlayEntry(st: LinkState, strings: Strings, d: DebugRecord): (r: Result<LinkState>)
    requires ValidMaps(st)
    ensures r.Ok? <==> Target(st.gimmicks, d).None? || strings.Read(d.stringId).Some?
    ensures r.Err? ==> r.error == UnterminatedString(d.stringId)
    ensures r.Ok? ==> && SameShape(st.sections, r.value.sections)
                      && r.value.gimmicks == st.gimmicks && r.value.bdat == st.bdat
                      && ValidMaps(r.value)
  {
    match Target(st.gimmicks, d)
    case None => Ok(st)
    case Some(p) =>
      var name :- ReadString(strings, d.stringId);
      Ok(st.(sections := Update(st.sections, p, At(st.sections, p).(name := Some(name)))))
  }

  /** The overlay loop over the debug records in order. */
  function OverlaySeq(st: LinkState, strings: Strings, ds: seq<DebugRecord>): (r: Result<LinkState>)
    requires ValidMaps(st)
    ensures r.Ok? <==> forall j :: 0 <= j < |ds| ==>
                         Target(st.gimmicks, ds[j]).None? || strings.Read(ds[j].stringId).Some?
    ensures r.Ok? ==> && SameShape(st.sections, r.value.sections)
                      && r.value.gimmicks == st.gimmicks && r.value.bdat == st.bdat
                      && ValidMaps(r.value)
    decreases |ds|
  {
    if ds == [] then Ok(st)
    else
      var next :- OverlayEntry(st, strings, ds[0]);
      OverlaySeq(next, strings, ds[1..])
  }

  /** `after` is `before` with names changed only: an entry no record of `ds`
      names keeps its name, and an entry named by some of them has the string
      of the last of them. */
  ghost predicate RenamedOnly(before: seq<Section>, after: seq<Section>, m: map<Key, EntryRef>, strings: Strings, ds: seq<DebugRecord>)
    requires SameShape(before, after)
  {
    && (forall q | ValidRef(before, q) :: At(after, q).(name := At(before, q).name) == At(before, q))
    && (forall q | ValidRef(before, q) && (forall j :: 0 <= j < |ds| ==> Target(m, ds[j]) != Some(q)) ::
          At(after, q) == At(before, q))
    && (forall j :: (&& 0 <= j < |ds| && Target(m, ds[j]).Some? && ValidRef(before, Target(m, ds[j]).value)
                     && (forall j' :: j < j' < |ds| ==> Target(m, ds[j']) != Target(m, ds[j]))) ==>
          At(after, Target(m, ds[j]).value).name == strings.Read(ds[j].stringId))
  }

  lemma OverlayEntryNames(st: LinkState, strings: Strings, d: DebugRecord)
    requires ValidMaps(st) && OverlayEntry(st, strings, d).Ok?
    ensures RenamedOnly(st.sections, OverlayEntry(st, strings, d).value.sections, st.gimmicks, strings, [d])
  {
    var r := OverlayEntry(st, strings, d).value;
    forall q | ValidRef(st.sections, q) && (forall j :: 0 <= j < |[d]| ==> Target(st.gimmicks, [d][j]) != Some(q))
      ensures At(r.sections, q) == At(st.sections, q)
    {
      assert [d][0] == d;
    }
  }

  /** The overlay changes names only, each to the string of the last record
      naming that entry. */
  lemma {:induction false} OverlayNames(st: LinkState, strings: Strings, ds: seq<DebugRecord>)
    requires ValidMaps(st) && OverlaySeq(st, strings, ds).Ok?
    ensures RenamedOnly(st.sections, OverlaySeq(st, strings, ds).value.sections, st.gimmicks, strings, ds)
    decreases |ds|
  {
    if ds != [] {
      var next := OverlayEntry(st, strings, ds[0]).value;
      OverlayEntryNames(st, strings, ds[0]);
      OverlayNames(next, strings, ds[1..]);
      RenamedOnlyCompose(st.sections, next.sections, OverlaySeq(st, strings, ds).value.sections, st.gimmicks, strings, ds);
    }
  }

  lemma RenamedOnlyCompose(a: seq<Section>, b: seq<Section>, c: seq<Section>, m: map<Key, EntryRef>, strings: Strings, ds: seq<DebugRecord>)
    requires ds != [] && SameShape(a, b) && SameShape(b, c)
    requires RenamedOnly(a, b, m, strings, [ds[0]]) && RenamedOnly(b, c, m, strings, ds[1..])
    ensures SameShape(a, c) && RenamedOnly(a, c, m, strings, ds)
  {
    forall j | 0 <= j < |ds| && Target(m, ds[j]).Some? && ValidRef(a, Target(m, ds[j]).value) &&
               (forall j' :: j < j' < |ds| ==> Target(m, ds[j']) != Target(m, ds[j]))
      ensures At(c, Target(m, ds[j]).value).name == strings.Read(ds[j].stringId)
    {
      var t := Target(m, ds[j]).value;
      if j > 0 {
        assert ds[1..][j - 1] == ds[j];
        forall j' | j - 1 < j' < |ds| - 1
          ensures Target(m, ds[1..][j']) != Target(m, ds[1..][j - 1])
        {
          assert ds[1..][j'] == ds[j' + 1];
        }
        assert ValidRef(b, t);
      } else {
        forall j' | 0 <= j' < |ds| - 1
          ensures Target(m, ds[1..][j']) != Some(t)
        {
          assert ds[1..][j'] == ds[j' + 1];
        }
        assert [ds[0]][0] == ds[0];
        assert At(b, t).name == strings.Read(ds[0].stringId);
        assert At(c, t) == At(b, t);
      }
    }
    forall q | ValidRef(a, q) && (forall j :: 0 <= j < |ds| ==> Target(m, ds[j]) != Some(q))
      ensures At(c, q) == At(a, q)
    {
      assert Target(m, ds[0]) != Some(q);
      forall j' | 0 <= j' < |ds| - 1
        ensures Target(m, ds[1..][j']) != Some(q)
      {
        assert ds[1..][j'] == ds[j' + 1];
      }
    }
  }
}
