/** Closure and naming: the invariant of the registry is kept by every conversion, on every definition graph. */
module RegistrySafety {
  import opened Options
  import opened JsonSchema
  import opened OpenApi
  import opened SchemaRewrite
  import opened ComponentNames
  import opened Registry
  import opened RegistryInvariants

  /** The state a component's body is converted in, seen from the state before. */
  ghost predicate Started(r: Reg, start: Reg, name: string)
  {
    && start.inlining == r.inlining
    && r.anon <= start.anon
    && Grows(r.converted, start.converted)
    && Grows(r.byFingerprint, start.byFingerprint)
    && Grows(r.schemas, start.schemas)
    && MarksNew(r, start)
    && name !in r.schemas
    && start.schemas.Keys <= r.schemas.Keys + {name}
    && Targets(start) == Targets(r) + {name}
    && (AnonLike(name) ==> NumberedWithin(name, r.anon, start.anon))
    && (if name in start.schemas then start.schemas[name] == EMPTY else name == AnonymousName(start.anon))
  }

  lemma {:induction false} NumberedApart(name: string, lo: nat, hi: nat, k: nat)
    requires NumberedWithin(name, lo, hi) && name == AnonymousName(k)
    ensures lo < k <= hi
  {
    var j: nat :| lo < j <= hi && name == AnonymousName(j);
    NumberedDistinct(ANONYMOUS, j, k);
  }

  lemma TargetsAdd(r: Reg, d: string, name: string)
    requires d !in r.converted
    ensures Targets(r.(converted := r.converted[d := ORef(name)])) == Targets(r) + {name}
  {
    var r' := r.(converted := r.converted[d := ORef(name)]);
    assert r'.converted[d] == ORef(name);
    forall n | n in Targets(r) ensures n in Targets(r') {
      var e :| e in r.converted && r.converted[e].ORef? && r.converted[e].name == n;
      assert r'.converted[e] == r.converted[e];
    }
  }

  lemma SchemasRefToMore(r: Reg, names: set<string>)
    requires forall n | n in r.schemas :: RefsTo(r.schemas[n], Reserved(r))
    requires Reserved(r) <= names
    ensures forall n | n in r.schemas :: RefsTo(r.schemas[n], names)
  {
    forall n | n in r.schemas ensures RefsTo(r.schemas[n], names) {
      RefsToMore(r.schemas[n], Reserved(r), names);
    }
  }

  lemma ConvertedStays(c: Context, r: Reg, r': Reg)
    requires ConvertedOk(c, r) && r'.converted == r.converted && r'.byFingerprint == r.byFingerprint && r'.anon == r.anon
    ensures ConvertedOk(c, r')
  {
    forall d | d in r'.converted ensures Justified(c, r', d, r'.converted[d].name) {
      assert Justified(c, r, d, r.converted[d].name);
    }
  }

  /** One more definition is converted; the others are converted for the same reasons as before. */
  lemma ConvertedAdds(c: Context, r: Reg, r': Reg, d: string, name: string)
    requires ConvertedOk(c, r) && d in c.universe && !IsAnyJson(d) && r'.converted == r.converted[d := ORef(name)]
    requires Grows(r.byFingerprint, r'.byFingerprint) && r.anon <= r'.anon && Justified(c, r', d, name)
    ensures ConvertedOk(c, r')
  {
    forall e | e in r'.converted ensures r'.converted[e].ORef? && Justified(c, r', e, r'.converted[e].name) {
      if e != d {
        assert Justified(c, r, e, r.converted[e].name);
        if ComponentNameFor(e).None? { NumberedMore(r.converted[e].name, 0, 0, r.anon, r'.anon); }
      }
    }
  }

  lemma NumberedMore(name: string, lo: nat, lo': nat, hi: nat, hi': nat)
    requires NumberedWithin(name, lo, hi) && lo' <= lo && hi <= hi'
    ensures NumberedWithin(name, lo', hi')
  {
    var k: nat :| lo < k <= hi && name == AnonymousName(k);
  }

  lemma AliasExtends(r: Reg, d: string, name: string)
    requires d !in r.converted && name in r.schemas
    ensures Extends(r, r.(converted := r.converted[d := ORef(name)]))
    ensures Reserved(r.(converted := r.converted[d := ORef(name)])) == Reserved(r)
  {
    TargetsAdd(r, d, name);
  }

  /** Converting `d` to a component that exists already. */
  lemma AliasKeeps(c: Context, r: Reg, d: string, name: string)
    requires Inv(c, r) && d in c.universe && d !in r.converted && ComponentNameFor(d).Some? && !IsAnyJson(d)
    requires name in r.schemas && Justified(c, r, d, name)
    ensures Inv(c, r.(converted := r.converted[d := ORef(name)]))
  {
    var r' := r.(converted := r.converted[d := ORef(name)]);
    AliasExtends(r, d, name);
    ConvertedAdds(c, r, r', d, name);
    assert StoredOk(r') && MarksOk(c, r') && AnonymousApart(r');
  }

  lemma NamedStarts(r: Reg, d: string, mark: (string, Schema), name: string)
    requires d !in r.converted && mark !in r.byFingerprint && name !in r.schemas && !AnonLike(name)
    ensures Started(r, Reserve(r, d, mark, name), name)
  {
    var start := Reserve(r, d, mark, name);
    TargetsAdd(r, d, name);
    assert Targets(start) == Targets(r.(converted := r.converted[d := ORef(name)]));
  }

  lemma NamedKeeps(c: Context, r: Reg, d: string, name: string)
    requires Inv(c, r) && NoAnonNames(c) && d in c.universe && d !in r.converted && !IsAnyJson(d)
    requires ComponentNameFor(d).Some? && ComponentNameFor(d).value !in c.swaggerOwned
    requires Mark(c, d) !in r.byFingerprint && name == FreeName(r.schemas.Keys, ComponentNameFor(d).value)
    ensures Inv(c, Reserve(r, d, Mark(c, d), name))
  {
    var start := Reserve(r, d, Mark(c, d), name);
    FreeNameNotAnonLike(r.schemas.Keys, ComponentNameFor(d).value);
    NamedStarts(r, d, Mark(c, d), name);
    assert MarksOk(c, start);
    ConvertedAdds(c, r, start, d, name);
    assert StoredOk(start) by {
      SchemasRefToMore(r, Reserved(start));
      EmptyRefs(Reserved(start));
    }
  }

  lemma EmptyRefs(names: set<string>)
    ensures RefsTo(EMPTY, names)
  {
    OnlyVariantsRefTo(EMPTY, names);
  }

  lemma AnonymousStarts(c: Context, r: Reg, d: string, name: string)
    requires NamesOk(c, r) && d !in r.converted
    requires name == FreeName(r.schemas.Keys, AnonymousName(r.anon + 1))
    ensures name == AnonymousName(r.anon + 1) && NumberedWithin(name, r.anon, r.anon + 1)
    ensures Started(r, r.(anon := r.anon + 1, converted := r.converted[d := ORef(name)]), name)
  {
    var start := r.(anon := r.anon + 1, converted := r.converted[d := ORef(name)]);
    AnonymousIsAnonLike(r.anon + 1);
    if AnonymousName(r.anon + 1) in r.schemas {
      NumberedApart(AnonymousName(r.anon + 1), 0, r.anon, r.anon + 1);
    }
    TargetsAdd(r, d, name);
    assert Targets(start) == Targets(r.(converted := r.converted[d := ORef(name)]));
  }

  lemma AnonymousKeeps(c: Context, r: Reg, d: string, name: string)
    requires Inv(c, r) && d in c.universe && d !in r.converted && ComponentNameFor(d).None? && !IsAnyJson(d)
    requires name == FreeName(r.schemas.Keys, AnonymousName(r.anon + 1))
    ensures Inv(c, r.(anon := r.anon + 1, converted := r.converted[d := ORef(name)]))
  {
    var start := r.(anon := r.anon + 1, converted := r.converted[d := ORef(name)]);
    AnonymousStarts(c, r, d, name);
    forall n | NumberedWithin(n, 0, r.anon) ensures NumberedWithin(n, 0, start.anon) && n != name {
      NumberedMore(n, 0, 0, r.anon, start.anon);
      if n == name { NumberedApart(n, 0, r.anon, r.anon + 1); }
    }
    NumberedMore(name, r.anon, 0, start.anon, start.anon);
    ConvertedAdds(c, r, start, d, name);
    assert AnonymousApart(start) by {
      forall e | e in r.converted && ComponentNameFor(e).None? ensures r.converted[e] != ORef(name) {
        assert Justified(c, r, e, r.converted[e].name);
      }
    }
    assert StoredOk(start) by {
      SchemasRefToMore(r, Reserved(start));
    }
    assert NamesOk(c, start) && MarksOk(c, start);
  }

  /** A component is stored over its own placeholder, or over nothing. */
  lemma StoreFresh(r: Reg, start: Reg, name: string, done: Reg)
    requires Started(r, start, name) && Extends(start, done)
    ensures name !in done.schemas || (name in start.schemas && done.schemas[name] == EMPTY)
  {
    if name in done.schemas && name !in start.schemas {
      AnonymousIsAnonLike(start.anon);
      NumberedApart(name, start.anon, done.anon, start.anon);
    }
  }

  lemma StoreExtends(r: Reg, start: Reg, name: string, done: Reg, o: Out)
    requires Started(r, start, name) && Extends(start, done)
    ensures Extends(r, Store(done, name, o))
  {
    var last := Store(done, name, o);
    assert Targets(last) == Targets(done);
    forall n | n in last.schemas && n !in r.schemas && AnonLike(n) ensures NumberedWithin(n, r.anon, last.anon) {
      if n == name {
        NumberedMore(n, r.anon, r.anon, start.anon, last.anon);
      } else {
        NumberedMore(n, start.anon, r.anon, done.anon, last.anon);
      }
    }
    forall k | k in r.schemas ensures k in last.schemas && last.schemas[k] == r.schemas[k] {
      assert k in start.schemas && start.schemas[k] == r.schemas[k];
    }
    forall d | d in r.converted ensures d in last.converted && last.converted[d] == r.converted[d] {
      assert d in start.converted && start.converted[d] == r.converted[d];
    }
    forall p | p in r.byFingerprint ensures p in last.byFingerprint && last.byFingerprint[p] == r.byFingerprint[p] {
      assert p in start.byFingerprint && start.byFingerprint[p] == r.byFingerprint[p];
    }
  }

  lemma StoreKeepsInv(c: Context, done: Reg, name: string, o: Out)
    requires Inv(c, done) && name in Reserved(done) && RefsTo(o, Reserved(done))
    requires AnonLike(name) ==> NumberedWithin(name, 0, done.anon)
    ensures Inv(c, Store(done, name, o))
  {
    var last := Store(done, name, o);
    assert Targets(last) == Targets(done);
    assert Reserved(last) == Reserved(done);
    assert StoredOk(last);
    ConvertedStays(c, done, last);
  }

  /** Storing the finished body of a component. */
  lemma StoreKeeps(c: Context, r: Reg, start: Reg, name: string, done: Reg, o: Out)
    requires Started(r, start, name) && Extends(start, done) && Inv(c, done) && RefsTo(o, Reserved(done))
    ensures Inv(c, Store(done, name, o)) && Extends(r, Store(done, name, o))
    ensures name in Store(done, name, o).schemas
  {
    StoreExtends(r, start, name, done, o);
    ExtendsReserved(start, done);
    if AnonLike(name) { NumberedMore(name, r.anon, 0, start.anon, done.anon); }
    StoreKeepsInv(c, done, name, o);
  }

  // ----- every conversion -----

  /** What a conversion from `r` to `r'` keeps. */
  ghost predicate Kept(c: Context, r: Reg, r': Reg)
  {
    Inv(c, r') && Extends(r, r')
  }

  lemma KeptTransitive(c: Context, r: Reg, r1: Reg, r2: Reg)
    requires Kept(c, r, r1) && Kept(c, r1, r2)
    ensures Kept(c, r, r2)
  {
    ExtendsTransitive(r, r1, r2);
  }

  /** An answer that is known at once keeps the invariant. */
  lemma KnownKeeps(c: Context, r: Reg, d: string)
    requires Inv(c, r) && d in c.universe && PlanFor(c, r, d).Known?
    ensures var p := PlanFor(c, r, d); Sane(c, r, Result(p.out, p.reg))
  {
    var nice := ComponentNameFor(d);
    if d in r.converted {
      assert r.converted[d].name in Targets(r);
    } else if IsAnyJson(d) {
      OnlyVariantsRefTo(ANY_JSON, Reserved(r));
    } else if nice.value in c.swaggerOwned {
      AliasKeeps(c, r, d, nice.value);
      AliasExtends(r, d, nice.value);
    } else {
      AliasKeeps(c, r, d, r.byFingerprint[Mark(c, d)].name);
      AliasExtends(r, d, r.byFingerprint[Mark(c, d)].name);
    }
  }

  /** The plan for a definition keeps the invariant up to the point where its body is converted. */
  lemma PlanKeeps(c: Context, r: Reg, d: string)
    requires Inv(c, r) && NoAnonNames(c) && d in c.universe
    ensures var p := PlanFor(c, r, d);
      && (p.Known? ==> Sane(c, r, Result(p.out, p.reg)))
      && (p.Component? ==> Inv(c, p.start) && Started(r, p.start, p.name))
      && (p.Inline? ==> Inv(c, p.start))
  {
    match PlanFor(c, r, d)
    case Known(_, _) => KnownKeeps(c, r, d);
    case Component(name, _) =>
      if ComponentNameFor(d).Some? {
        NamedKeeps(c, r, d, name);
        FreeNameNotAnonLike(r.schemas.Keys, ComponentNameFor(d).value);
        NamedStarts(r, d, Mark(c, d), name);
      } else {
        AnonymousKeeps(c, r, d, name);
        AnonymousStarts(c, r, d, name);
      }
    case Inline(start) =>
      assert Targets(start) == Targets(r);
      ConvertedStays(c, r, start);
  }

  /** The state is kept and the output refers to reserved components only. */
  ghost predicate Sane(c: Context, r: Reg, res: Result<Out>)
  {
    Kept(c, r, res.reg) && RefsTo(res.out, Reserved(res.reg))
  }

  lemma {:induction false} ConvertKeeps(c: Context, r: Reg, s: Schema)
    requires Closed(c) && RefsIn(s, c.universe) && NoAnonNames(c) && Inv(c, r)
    ensures Sane(c, r, ConvertF(c, r, s))
    decreases Todo(c, r), Open(c, r), s, 2
  {
    match s
    case Ref(Some(d)) => ResolveKeeps(c, r, d);
    case Obj(es) =>
      var res := EntriesF(c, r, es);
      EntriesKeep(c, r, es);
      DraftRefsTo(es, res.out, Reserved(res.reg));
      FinishRefsTo(Draft(es, res.out), Reserved(res.reg));
    case _ => EmptyRefs(Reserved(r));
  }

  lemma {:induction false} EntriesKeep(c: Context, r: Reg, es: seq<Entry>)
    requires Closed(c) && EntriesRefsIn(es, c.universe) && NoAnonNames(c) && Inv(c, r)
    ensures EntriesSane(c, r, EntriesF(c, r, es))
    decreases Todo(c, r), Open(c, r), es, 1
  {
    if es == [] {
      assert AllFitRefsTo([], Reserved(r));
    } else {
      var before, last := EntriesF(c, r, es[..|es| - 1]), es[|es| - 1];
      EntriesKeep(c, r, es[..|es| - 1]);
      if last.Group? {
        LastGroupKeeps(c, r, es, before.reg);
        EntriesExtended(c, r, before, KidsF(c, before.reg, last.kids));
      } else {
        LeafExtends(c, r, before);
      }
    }
  }

  lemma {:induction false} LastGroupKeeps(c: Context, r: Reg, es: seq<Entry>, reg: Reg)
    requires Closed(c) && EntriesRefsIn(es, c.universe) && NoAnonNames(c) && es != [] && es[|es| - 1].Group?
    requires r.converted.Keys <= reg.converted.Keys && reg.inlining == r.inlining && Inv(c, reg)
    ensures KidsSane(c, reg, KidsF(c, reg, es[|es| - 1].kids))
    decreases Todo(c, r), Open(c, r), es, 0
  {
    TodoShrinks(c, r, reg);
    KidsKeep(c, reg, es[|es| - 1].kids);
  }

  lemma LeafExtends(c: Context, r: Reg, before: Result<seq<seq<Out>>>)
    requires EntriesSane(c, r, before)
    ensures EntriesSane(c, r, Result(before.out + [[]], before.reg))
  {
    AllFitMore(before.out, [], Reserved(before.reg), Reserved(before.reg));
  }

  ghost predicate EntriesSane(c: Context, r: Reg, res: Result<seq<seq<Out>>>)
  {
    Kept(c, r, res.reg) && AllFitRefsTo(res.out, Reserved(res.reg))
  }

  ghost predicate KidsSane(c: Context, r: Reg, res: Result<seq<Out>>)
  {
    Kept(c, r, res.reg) && AllRefsTo(res.out, Reserved(res.reg))
  }

  lemma EntriesExtended(c: Context, r: Reg, before: Result<seq<seq<Out>>>, here: Result<seq<Out>>)
    requires EntriesSane(c, r, before) && KidsSane(c, before.reg, here)
    ensures EntriesSane(c, r, Result(before.out + [here.out], here.reg))
  {
    KeptTransitive(c, r, before.reg, here.reg);
    ExtendsReserved(before.reg, here.reg);
    AllFitMore(before.out, here.out, Reserved(before.reg), Reserved(here.reg));
  }

  lemma KidsExtended(c: Context, r: Reg, before: Result<seq<Out>>, here: Result<Out>)
    requires KidsSane(c, r, before) && Sane(c, before.reg, here)
    ensures KidsSane(c, r, Result(before.out + [here.out], here.reg))
  {
    KeptTransitive(c, r, before.reg, here.reg);
    ExtendsReserved(before.reg, here.reg);
    AllRefsToMore(before.out, Reserved(before.reg), Reserved(here.reg));
  }

  lemma AllFitMore(outss: seq<seq<Out>>, outs: seq<Out>, a: set<string>, b: set<string>)
    requires AllFitRefsTo(outss, a) && a <= b && AllRefsTo(outs, b)
    ensures AllFitRefsTo(outss + [outs], b)
  {
    forall i | 0 <= i < |outss| ensures AllRefsTo(outss[i], b) {
      AllRefsToMore(outss[i], a, b);
    }
  }

  lemma {:induction false} KidsKeep(c: Context, r: Reg, kids: seq<Kid>)
    requires Closed(c) && KidsRefsIn(kids, c.universe) && NoAnonNames(c) && Inv(c, r)
    ensures KidsSane(c, r, KidsF(c, r, kids))
    decreases Todo(c, r), Open(c, r), kids, 1
  {
    if kids == [] {
      assert AllRefsTo([], Reserved(r));
    } else {
      var n := |kids| - 1;
      var before := KidsF(c, r, kids[..n]);
      KidsKeep(c, r, kids[..n]);
      LastKidKeeps(c, r, kids, before.reg);
      KidsExtended(c, r, before, ConvertF(c, before.reg, kids[n].schema));
    }
  }

  lemma {:induction false} LastKidKeeps(c: Context, r: Reg, kids: seq<Kid>, reg: Reg)
    requires Closed(c) && KidsRefsIn(kids, c.universe) && NoAnonNames(c) && kids != []
    requires r.converted.Keys <= reg.converted.Keys && reg.inlining == r.inlining && Inv(c, reg)
    ensures Sane(c, reg, ConvertF(c, reg, kids[|kids| - 1].schema))
    decreases Todo(c, r), Open(c, r), kids, 0
  {
    TodoShrinks(c, r, reg);
    ConvertKeeps(c, reg, kids[|kids| - 1].schema);
  }

  lemma {:induction false} ResolveKeeps(c: Context, r: Reg, d: string)
    requires Closed(c) && d in c.universe && NoAnonNames(c) && Inv(c, r)
    ensures Sane(c, r, ResolveF(c, r, d))
    decreases Todo(c, r), Open(c, r), Ref(Some(d)), 1
  {
    var p := PlanFor(c, r, d);
    PlanKeeps(c, r, d);
    if !p.Known? {
      PlanDescends(c, r, d);
      BodyKeeps(c, r, d, p.start);
    }
    ResolveSane(c, r, d, p);
  }

  /** The body of the definition, converted as the plan says. */
  function Converted(c: Context, d: string, start: Reg): Result<Out>
    requires Closed(c)
  {
    BodyRefsIn(c, d);
    ConvertF(c, start, Body(c, d))
  }

  predicate Descends(c: Context, r: Reg, start: Reg)
  {
    Todo(c, start) < Todo(c, r) || (Todo(c, start) == Todo(c, r) && Open(c, start) < Open(c, r))
  }

  lemma PlanDescends(c: Context, r: Reg, d: string)
    requires d in c.universe && !PlanFor(c, r, d).Known?
    ensures Descends(c, r, PlanFor(c, r, d).start)
  {
    var p := PlanFor(c, r, d);
    if p.Component? {
      TodoFewer(c, r, d, p.start);
    } else {
      OpenFewer(c, r, d, p.start);
    }
  }

  lemma {:induction false} BodyKeeps(c: Context, r: Reg, d: string, start: Reg)
    requires Closed(c) && d in c.universe && NoAnonNames(c) && Inv(c, start) && Descends(c, r, start)
    ensures Sane(c, start, Converted(c, d, start))
    decreases Todo(c, r), Open(c, r), Ref(Some(d)), 0
  {
    BodyRefsIn(c, d);
    ConvertKeeps(c, start, Body(c, d));
  }

  lemma ResolveSane(c: Context, r: Reg, d: string, p: Plan)
    requires Closed(c) && d in c.universe && p == PlanFor(c, r, d)
    requires p.Known? ==> Sane(c, r, Result(p.out, p.reg))
    requires p.Component? ==> Started(r, p.start, p.name)
    requires !p.Known? ==> Sane(c, p.start, Converted(c, d, p.start))
    ensures Sane(c, r, ResolveF(c, r, d))
  {
    match p
    case Known(_, _) =>
    case Component(name, start) => ComponentSane(c, r, start, name, Converted(c, d, start));
    case Inline(start) => InlineSane(c, r, start, d, Converted(c, d, start));
  }

  lemma ComponentSane(c: Context, r: Reg, start: Reg, name: string, done: Result<Out>)
    requires Started(r, start, name) && Sane(c, start, done)
    ensures Sane(c, r, Result(ORef(name), Store(done.reg, name, done.out)))
  {
    StoreKeeps(c, r, start, name, done.reg, done.out);
  }

  lemma InlineSane(c: Context, r: Reg, start: Reg, d: string, done: Result<Out>)
    requires d !in r.inlining && start == r.(inlining := r.inlining + {d})
    requires Sane(c, start, done)
    ensures Sane(c, r, Result(done.out, done.reg.(inlining := done.reg.inlining - {d})))
  {
    var last := done.reg.(inlining := done.reg.inlining - {d});
    assert Targets(last) == Targets(done.reg) && Targets(start) == Targets(r);
    ConvertedStays(c, done.reg, last);
    assert Reserved(last) == Reserved(done.reg);
  }
}
