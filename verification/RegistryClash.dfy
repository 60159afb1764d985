/**
  Over which names of definitions a component can be replaced by another: for every finite set of names, some
  graph and some run do that exactly when a named definition can be given the name of an anonymous component.
*/
module RegistryClash {
  import opened Options
  import opened Sequences
  import opened JsonSchema
  import opened OpenApi
  import opened SchemaRewrite
  import opened ComponentNames
  import opened Fingerprint
  import opened Registry
  import opened RegistryInvariants
  import opened RegistrySafety
  import opened RegistryOrder
  import opened RegistryRuns
  import opened RegistryTrace

  /** What the generator promises of a run: Swagger's components and the names given to `add` are not anonymous ones. */
  ghost predicate Ordinary(c: Context, swagger: map<string, Out>, ops: seq<Op>)
  {
    && Registry.Closed(c) && c.swaggerOwned == swagger.Keys && OpsOk(c, ops)
    && forall n | n in swagger :: !AnonLike(n)
  }

  /** Some graph over these names, and some run, in which a component is stored over another one. */
  ghost predicate CanReplace(names: set<string>)
  {
    exists c: Context, swagger: map<string, Out>, ops: seq<Op> ::
      c.universe == names && Ordinary(c, swagger, ops) && !Once(RunT(c, Initial(swagger), ops))
  }

  lemma InitialOrdered(c: Context, swagger: map<string, Out>)
    requires forall n | n in swagger :: !AnonLike(n)
    ensures Ordered(c, Initial(swagger))
  {
    forall j: nat ensures AnonymousName(j) !in swagger { AnonymousIsAnonLike(j); }
    assert AnonLike(ANONYMOUS);
  }

  // ----- graphs that replace -----

  const TEXT := Obj([Leaf(Type(One(TString)))])
  const COUNT := Obj([Leaf(Type(One(TInteger)))])

  /** References side by side. */
  function References(names: seq<string>): seq<Kid>
  {
    seq(|names|, i requires 0 <= i < |names| => Kid("", Ref(Some(names[i]))))
  }

  /** An anonymous definition that refers to itself, and then to others. */
  function Loop(a: string, others: seq<string>): Schema
  {
    Obj([Group(AllOf, References([a] + others))])
  }

  lemma LoopRefsIn(a: string, others: seq<string>, names: set<string>)
    requires a in names && forall i | 0 <= i < |others| :: others[i] in names
    ensures RefsIn(Loop(a, others), names) && KidsRefsIn(References([a] + others), names)
  {
    var kids := References([a] + others);
    forall i | 0 <= i < |kids| ensures RefsIn(kids[i].schema, names) {}
    assert KidsRefsIn(kids, names);
    assert EntriesRefsIn([Group(AllOf, kids)], names);
  }

  /** An object with one keyword is converted by converting what is under it. */
  lemma LoopSteps(c: Context, r: Reg, a: string, others: seq<string>)
    requires Registry.Closed(c) && RefsIn(Loop(a, others), c.universe) && KidsRefsIn(References([a] + others), c.universe)
    ensures ConvertF(c, r, Loop(a, others)).reg == KidsF(c, r, References([a] + others)).reg
    ensures ConvertT(c, r, Loop(a, others)) == KidsT(c, r, References([a] + others))
  {
    var kids := References([a] + others);
    var es := [Group(AllOf, kids)];
    assert es[..0] == [];
    assert EntriesF(c, r, es[..0]) == Result([], r) && EntriesT(c, r, es[..0]) == [];
    assert [] + KidsT(c, r, kids) == KidsT(c, r, kids);
  }

  /** Converting the last reference after the others. */
  lemma LastReference(c: Context, r: Reg, names: seq<string>, d: string)
    requires Registry.Closed(c) && d in c.universe && KidsRefsIn(References(names + [d]), c.universe)
    ensures KidsRefsIn(References(names), c.universe)
    ensures var before := KidsF(c, r, References(names)).reg;
      && KidsF(c, r, References(names + [d])).reg == ResolveF(c, before, d).reg
      && KidsT(c, r, References(names + [d])) == KidsT(c, r, References(names)) + ResolveT(c, before, d)
  {
    var kids := References(names + [d]);
    assert kids[..|names|] == References(names) && kids[|names|] == Kid("", Ref(Some(d)));
  }

  lemma NoReferences(c: Context, r: Reg)
    requires Registry.Closed(c)
    ensures KidsRefsIn(References([]), c.universe)
    ensures KidsF(c, r, References([])).reg == r && KidsT(c, r, References([])) == []
  {
    assert References([]) == [];
  }

  lemma AnonymousNotAnyJson(a: string)
    requires ComponentNameFor(a).None?
    ensures !IsAnyJson(a)
  {
  }

  lemma AnonLikeNotAnyJson(d: string)
    requires ComponentNameFor(d).Some? && ANONYMOUS <= ComponentNameFor(d).value
    ensures !IsAnyJson(d)
  {
    assert LastSegment(d)[0] == 'A';
  }

  /** A reference answered before. */
  lemma KnownReference(c: Context, r: Reg, d: string)
    requires Registry.Closed(c) && d in c.universe && d in r.converted
    ensures ResolveF(c, r, d).reg == r && ResolveT(c, r, d) == []
  {
  }

  /** What a first reference, met within the body, is planned to be. */
  lemma InsideIsNamed(c: Context, r: Reg, a: string)
    requires ComponentNameFor(a).None? && a !in r.converted && a in r.inlining && AnonymousName(r.anon + 1) !in r.schemas
    ensures var name := AnonymousName(r.anon + 1);
      PlanFor(c, r, a) == Component(name, r.(anon := r.anon + 1, converted := r.converted[a := ORef(name)]))
  {
    AnonymousNotAnyJson(a);
  }

  lemma OutsideIsInlined(c: Context, r: Reg, a: string)
    requires ComponentNameFor(a).None? && a !in r.converted && a !in r.inlining
    ensures PlanFor(c, r, a) == Inline(r.(inlining := r.inlining + {a}))
  {
    AnonymousNotAnyJson(a);
  }

  /** The next anonymous component is stored, and nothing else happens. */
  ghost predicate NextGiven(r: Reg, a: string, q: Reg)
  {
    && q.anon == r.anon + 1 && q.byFingerprint == r.byFingerprint && q.inlining == r.inlining
    && q.converted.Keys == r.converted.Keys + {a}
    && q.schemas.Keys == r.schemas.Keys + {AnonymousName(r.anon + 1)}
  }

  lemma LoopInside(c: Context, r: Reg, a: string)
    requires Registry.Closed(c) && a in c.universe && Body(c, a) == Loop(a, []) && ComponentNameFor(a).None?
    requires a !in r.converted && a in r.inlining && AnonymousName(r.anon + 1) !in r.schemas
    ensures NextGiven(r, a, ResolveF(c, r, a).reg)
  {
    InsideIsNamed(c, r, a);
    var p := PlanFor(c, r, a);
    LoopBody(c, p.start, a);
    KnownReference(c, p.start, a);
    ResolveSteps(c, r, a, p);
  }

  lemma LoopBody(c: Context, r: Reg, a: string)
    requires Registry.Closed(c) && a in c.universe && Body(c, a) == Loop(a, [])
    ensures Converted(c, a, r).reg == ResolveF(c, r, a).reg
  {
    LoopRefsIn(a, [], c.universe);
    LoopSteps(c, r, a, []);
    NoReferences(c, r);
    assert [a] + [] == [] + [a];
    LastReference(c, r, [], a);
  }

  /** A loop met outside itself is inlined once, and its component takes the next name. */
  lemma LoopGivesName(c: Context, r: Reg, a: string)
    requires Registry.Closed(c) && a in c.universe && Body(c, a) == Loop(a, []) && ComponentNameFor(a).None?
    requires a !in r.converted && a !in r.inlining && AnonymousName(r.anon + 1) !in r.schemas
    ensures NextGiven(r, a, ResolveF(c, r, a).reg)
  {
    OutsideIsInlined(c, r, a);
    var p := PlanFor(c, r, a);
    LoopInside(c, p.start, a);
    LoopBody(c, p.start, a);
    assert ResolveF(c, r, a).reg.inlining == r.inlining;
  }

  // ----- a definition without references -----

  predicate Flat(s: Schema)
  {
    s == TEXT || s == COUNT
  }

  lemma FlatSteps(c: Context, r: Reg, s: Schema)
    requires Registry.Closed(c) && Flat(s)
    ensures RefsIn(s, c.universe) && ConvertF(c, r, s).reg == r && ConvertT(c, r, s) == []
  {
    var es := s.entries;
    assert es[..0] == [];
    assert EntriesF(c, r, es[..0]) == Result([], r) && EntriesT(c, r, es[..0]) == [];
  }

  /** The definition can be given its component: nothing stands in its place. */
  ghost predicate Unmet(c: Context, r: Reg, e: string, name: string)
  {
    && e in c.universe && e !in r.converted && Flat(Body(c, e)) && c.swaggerOwned == {}
    && ComponentNameFor(e).Some? && ANONYMOUS <= ComponentNameFor(e).value
    && Mark(c, e) !in r.byFingerprint && FreeName(r.schemas.Keys, ComponentNameFor(e).value) == name
  }

  lemma UnmetPlan(c: Context, r: Reg, e: string, name: string)
    requires Unmet(c, r, e, name)
    ensures PlanFor(c, r, e) == Component(name, Registry.Reserve(r, e, Mark(c, e), name))
  {
    AnonLikeNotAnyJson(e);
  }

  /** It is given that component, and put into it. */
  lemma UnmetStores(c: Context, r: Reg, e: string, name: string)
    requires Registry.Closed(c) && Unmet(c, r, e, name)
    ensures exists o :: ResolveT(c, r, e) == [Write.Reserve(name), Put(name, o)]
  {
    UnmetPlan(c, r, e, name);
    var p := PlanFor(c, r, e);
    FlatSteps(c, p.start, Body(c, e));
    ResolveSteps(c, r, e, p);
    var o := Converted(c, e, p.start).out;
    assert Around(true, name, [], o) == [Write.Reserve(name), Put(name, o)];
  }

  /** The state in which that has happened. */
  ghost predicate Entered(c: Context, r: Reg, e: string, name: string, q: Reg)
    requires ComponentNameFor(e).Some?
  {
    && q.schemas.Keys == r.schemas.Keys + {name} && q.converted.Keys == r.converted.Keys + {e}
    && q.byFingerprint.Keys == r.byFingerprint.Keys + {Mark(c, e)} && q.anon == r.anon && q.inlining == r.inlining
  }

  lemma UnmetEntered(c: Context, r: Reg, e: string, name: string)
    requires Registry.Closed(c) && Unmet(c, r, e, name)
    ensures Entered(c, r, e, name, ResolveF(c, r, e).reg)
  {
    UnmetPlan(c, r, e, name);
    var p := PlanFor(c, r, e);
    FlatSteps(c, p.start, Body(c, e));
    ResolveSteps(c, r, e, p);
  }

  // ----- one component over another -----

  lemma PutTwice(first: seq<Write>, name: string, o: Out, last: Out)
    ensures !Once(first + [Write.Reserve(name), Put(name, o)] + [Put(name, last)])
  {
    var all := first + [Write.Reserve(name), Put(name, o)] + [Put(name, last)];
    var n := |first|;
    assert all[n + 1] == Put(name, o) && all[n + 2] == Put(name, last);
  }

  lemma OncePart(a: seq<Write>, b: seq<Write>)
    ensures Once(a + b) ==> Once(a) && Once(b)
  {
    var all := a + b;
    if Once(all) {
      forall i, j | 0 <= i < j < |a| && a[i].name == a[j].name ensures a[i].Reserve? && a[j].Put? {
        assert all[i] == a[i] && all[j] == a[j];
      }
      forall i, j | 0 <= i < j < |b| && b[i].name == b[j].name ensures b[i].Reserve? && b[j].Put? {
        assert all[|a| + i] == b[i] && all[|a| + j] == b[j];
      }
    }
  }

  /** The body of a loop that goes on to another definition. */
  lemma LoopOnBody(c: Context, r: Reg, a: string, e: string)
    requires Registry.Closed(c) && a in c.universe && e in c.universe && Body(c, a) == Loop(a, [e])
    ensures BodyT(c, a, r) == ResolveT(c, r, a) + ResolveT(c, ResolveF(c, r, a).reg, e)
  {
    LoopRefsIn(a, [e], c.universe);
    LoopSteps(c, r, a, [e]);
    LastReference(c, r, [a], e);
    NoReferences(c, r);
    assert [a] == [] + [a];
    LastReference(c, r, [], a);
    assert [] + ResolveT(c, r, a) == ResolveT(c, r, a);
  }

  /** Inside itself the loop is given the next name, and what it goes on to takes the same one first. */
  lemma ClashInside(c: Context, r: Reg, a: string, e: string)
    requires Registry.Closed(c) && a in c.universe && Body(c, a) == Loop(a, [e]) && ComponentNameFor(a).None?
    requires a !in r.converted && a in r.inlining && AnonymousName(r.anon + 1) !in r.schemas
    requires Unmet(c, r, e, AnonymousName(r.anon + 1))
    ensures !Once(ResolveT(c, r, a))
  {
    InsideIsNamed(c, r, a);
    var p := PlanFor(c, r, a);
    KnownReference(c, p.start, a);
    LoopOnBody(c, p.start, a, e);
    UnmetStores(c, p.start, e, p.name);
    var o :| ResolveT(c, p.start, e) == [Write.Reserve(p.name), Put(p.name, o)];
    ResolveSteps(c, r, a, p);
    var last := Converted(c, a, p.start).out;
    assert [] + [Write.Reserve(p.name), Put(p.name, o)] == [Write.Reserve(p.name), Put(p.name, o)];
    assert ResolveT(c, r, a) == [] + [Write.Reserve(p.name), Put(p.name, o)] + [Put(p.name, last)];
    PutTwice([], p.name, o, last);
  }

  lemma LoopClashes(c: Context, r: Reg, a: string, e: string)
    requires Registry.Closed(c) && a in c.universe && Body(c, a) == Loop(a, [e]) && ComponentNameFor(a).None?
    requires a !in r.converted && a !in r.inlining && AnonymousName(r.anon + 1) !in r.schemas
    requires Unmet(c, r, e, AnonymousName(r.anon + 1))
    ensures !Once(ResolveT(c, r, a))
  {
    OutsideIsInlined(c, r, a);
    var p := PlanFor(c, r, a);
    ClashInside(c, p.start, a, e);
    LoopOnBody(c, p.start, a, e);
    OncePart(ResolveT(c, p.start, a), ResolveT(c, ResolveF(c, p.start, a).reg, e));
  }

  // ----- runs that lead there -----

  /** Anonymous loops, the last of which goes on to `e`; `e` and `other` have no references. */
  function Graph(names: set<string>, last: string, e: string, other: string): Context
  {
    Context(map d | d in names ::
              if d == e then TEXT else if d == other then COUNT else if d == last then Loop(d, [e]) else Loop(d, []),
            {}, names)
  }

  lemma GraphCloses(names: set<string>, last: string, e: string, other: string)
    requires e in names
    ensures Registry.Closed(Graph(names, last, e, other))
  {
    forall d | d in names ensures RefsIn(Graph(names, last, e, other).definitions[d], names) {
      LoopRefsIn(d, [e], names);
      LoopRefsIn(d, [], names);
      assert RefsIn(TEXT, names) && RefsIn(COUNT, names);
    }
  }

  function Conversions(roots: seq<string>): (ops: seq<Op>)
    ensures |ops| == |roots| && forall i | 0 <= i < |ops| :: ops[i] == Convert(Ref(Some(roots[i])))
  {
    seq(|roots|, i requires 0 <= i < |roots| => Convert(Ref(Some(roots[i]))))
  }

  /** Distinct anonymous definitions that refer to nothing but themselves. */
  ghost predicate Loops(c: Context, loops: seq<string>)
  {
    && (forall i | 0 <= i < |loops| ::
          loops[i] in c.universe && ComponentNameFor(loops[i]).None? && Body(c, loops[i]) == Loop(loops[i], []))
    && (forall i, j | 0 <= i < j < |loops| :: loops[i] != loops[j])
  }

  /** The first names are given to these definitions, and nothing else is converted. */
  ghost predicate Given(r: Reg, loops: seq<string>)
  {
    && r.anon == |loops| && r.byFingerprint == map[] && r.inlining == {}
    && (forall d | d in r.converted :: d in loops)
    && (forall n | n in r.schemas :: NumberedWithin(n, 0, |loops|))
  }

  lemma GivenFree(r: Reg, loops: seq<string>, k: nat)
    requires Given(r, loops) && k > |loops|
    ensures AnonymousName(k) !in r.schemas && ANONYMOUS !in r.schemas
  {
    forall j: nat ensures AnonymousName(j) == AnonymousName(k) ==> j == k {
      if AnonymousName(j) == AnonymousName(k) { NumberedDistinct(ANONYMOUS, j, k); }
    }
    forall j: nat ensures AnonymousName(j) != ANONYMOUS { NumberedIsNotAnonymous(ANONYMOUS, j); }
  }

  lemma GivenMore(r: Reg, loops: seq<string>, a: string, q: Reg)
    requires Given(r, loops) && NextGiven(r, a, q)
    ensures Given(q, loops + [a])
  {
    forall n | n in q.schemas ensures NumberedWithin(n, 0, |loops| + 1) {
      if n in r.schemas { NumberedMore(n, 0, 0, |loops|, |loops| + 1); }
    }
  }

  /** One more conversion after a run. */
  lemma RunMore(c: Context, ops: seq<Op>, d: string)
    requires Registry.Closed(c) && d in c.universe && OpsOk(c, ops)
    ensures OpsOk(c, ops + [Convert(Ref(Some(d)))])
    ensures var r := RunF(c, Initial(map[]), ops).reg;
      && RunF(c, Initial(map[]), ops + [Convert(Ref(Some(d)))]).reg == ResolveF(c, r, d).reg
      && RunT(c, Initial(map[]), ops + [Convert(Ref(Some(d)))]) == RunT(c, Initial(map[]), ops) + ResolveT(c, r, d)
  {
    var more := ops + [Convert(Ref(Some(d)))];
    assert more[..|ops|] == ops && more[|ops|] == Convert(Ref(Some(d)));
    var r := RunF(c, Initial(map[]), ops).reg;
    assert ResolveT(c, r, d) + [] == ResolveT(c, r, d);
  }

  lemma {:induction false} LoopsGiven(c: Context, loops: seq<string>)
    requires Registry.Closed(c) && Loops(c, loops)
    ensures OpsOk(c, Conversions(loops)) && Given(RunF(c, Initial(map[]), Conversions(loops)).reg, loops)
  {
    if loops != [] {
      var n := |loops| - 1;
      LoopsGiven(c, loops[..n]);
      LastSplit(loops);
      assert Conversions(loops) == Conversions(loops[..n]) + [Convert(Ref(Some(loops[n])))];
      RunMore(c, Conversions(loops[..n]), loops[n]);
      LoopGiven(c, RunF(c, Initial(map[]), Conversions(loops[..n])).reg, loops[..n], loops[n]);
    }
  }

  lemma LoopGiven(c: Context, r: Reg, loops: seq<string>, a: string)
    requires Registry.Closed(c) && Given(r, loops) && a !in loops
    requires a in c.universe && ComponentNameFor(a).None? && Body(c, a) == Loop(a, [])
    ensures Given(ResolveF(c, r, a).reg, loops + [a])
  {
    GivenFree(r, loops, |loops| + 1);
    LoopGivesName(c, r, a);
    GivenMore(r, loops, a, ResolveF(c, r, a).reg);
  }

  /** The run's last conversion replaces a component. */
  lemma LastReplaces(c: Context, ops: seq<Op>, last: string)
    requires Registry.Closed(c) && last in c.universe && c.swaggerOwned == {} && OpsOk(c, ops)
    requires !Once(ResolveT(c, RunF(c, Initial(map[]), ops).reg, last))
    ensures CanReplace(c.universe)
  {
    RunMore(c, ops, last);
    OncePart(RunT(c, Initial(map[]), ops), ResolveT(c, RunF(c, Initial(map[]), ops).reg, last));
    var more := ops + [Convert(Ref(Some(last)))];
    assert Ordinary(c, map[], more);
    assert !Once(RunT(c, Initial(map[]), more));
  }

  /** The graph's anonymous definitions but the last are loops. */
  lemma GraphLoops(names: set<string>, loops: seq<string>, last: string, e: string, other: string)
    requires e in names && ComponentNameFor(e).Some? && ComponentNameFor(other).Some? && last in Anons(names)
    requires forall i | 0 <= i < |loops| :: loops[i] in Anons(names) && loops[i] != last
    requires forall i, j | 0 <= i < j < |loops| :: loops[i] != loops[j]
    ensures var c := Graph(names, last, e, other);
      Registry.Closed(c) && Loops(c, loops) && Body(c, last) == Loop(last, [e]) && Body(c, e) == TEXT
  {
    GraphCloses(names, last, e, other);
  }

  /** The state in which the last loop clashes with what it goes on to. */
  ghost predicate Poised(c: Context, r: Reg, last: string, e: string)
  {
    && last !in r.converted && last !in r.inlining && AnonymousName(r.anon + 1) !in r.schemas
    && Unmet(c, r, e, AnonymousName(r.anon + 1))
  }

  lemma PoisedReplaces(c: Context, ops: seq<Op>, last: string, e: string)
    requires Registry.Closed(c) && OpsOk(c, ops) && last in c.universe && ComponentNameFor(last).None?
    requires Body(c, last) == Loop(last, [e]) && Poised(c, RunF(c, Initial(map[]), ops).reg, last, e)
    ensures CanReplace(c.universe)
  {
    LoopClashes(c, RunF(c, Initial(map[]), ops).reg, last, e);
    LastReplaces(c, ops, last);
  }

  /** As many of the anonymous names as are asked for, all different. */
  lemma {:induction false} SomeAnons(anons: set<string>, k: nat) returns (chosen: seq<string>)
    requires k <= |anons|
    ensures |chosen| == k && (forall i | 0 <= i < k :: chosen[i] in anons) && forall i, j | 0 <= i < j < k :: chosen[i] != chosen[j]
  {
    if k == 0 {
      chosen := [];
    } else {
      var a :| a in anons;
      var rest := SomeAnons(anons - {a}, k - 1);
      chosen := rest + [a];
    }
  }

  /** A definition named like the `j`-th anonymous component, and as many anonymous definitions. */
  lemma NamedAsAnonReplaces(names: set<string>, e: string, j: nat)
    requires e in names && 1 <= j <= |Anons(names)| && ComponentNameFor(e) == Some(AnonymousName(j))
    ensures CanReplace(names)
  {
    var chosen := SomeAnons(Anons(names), j);
    var loops, last := chosen[..j - 1], chosen[j - 1];
    var c := Graph(names, last, e, e);
    GraphLoops(names, loops, last, e, e);
    LoopsGiven(c, loops);
    var r := RunF(c, Initial(map[]), Conversions(loops)).reg;
    GivenFree(r, loops, j);
    assert Unmet(c, r, e, AnonymousName(j));
    PoisedReplaces(c, Conversions(loops), last, e);
  }

  /** The second definition called `Anonymous` is given number two. */
  lemma SecondAnonymous(taken: set<string>)
    requires ANONYMOUS in taken && AnonymousName(2) !in taken
    ensures FreeName(taken, ANONYMOUS) == AnonymousName(2)
  {
    assert AnonymousName(2) == ANONYMOUS + Decimal(2);
  }

  lemma FlatMarks()
    ensures Strip(TEXT) != Strip(COUNT)
  {
    FlatStrips(TString);
    FlatStrips(TInteger);
  }

  lemma FlatStrips(t: Type)
    ensures Strip(Obj([Leaf(Type(One(t)))])) == Obj([Leaf(Type(One(t)))])
  {
    var es := [Leaf(Type(One(t)))];
    assert es[..0] == [];
    assert StripEntries(es) == [] + StripEntry(es[0]);
  }

  lemma OtherUnmet(c: Context, r: Reg, loops: seq<string>, other: string)
    requires Given(r, loops) && other in c.universe && other !in loops && Flat(Body(c, other)) && c.swaggerOwned == {}
    requires ComponentNameFor(other) == Some(ANONYMOUS)
    ensures Unmet(c, r, other, ANONYMOUS)
  {
    GivenFree(r, loops, |loops| + 1);
  }

  /** After one loop and one definition called `Anonymous`, another is given the name of the second loop. */
  lemma SecondMet(c: Context, r: Reg, loops: seq<string>, last: string, e: string, other: string, q: Reg)
    requires Given(r, loops) && |loops| == 1 && ComponentNameFor(other).Some? && Entered(c, r, other, ANONYMOUS, q)
    requires e in c.universe && e != other && e !in loops && Flat(Body(c, e)) && Strip(Body(c, e)) != Strip(Body(c, other))
    requires ComponentNameFor(e) == Some(ANONYMOUS) && c.swaggerOwned == {} && last !in loops && last != other
    ensures Poised(c, q, last, e)
  {
    GivenFree(r, loops, 2);
    assert AnonymousName(2) !in q.schemas by { NumberedIsNotAnonymous(ANONYMOUS, 2); }
    SecondAnonymous(q.schemas.Keys);
    OtherMark(c, e, other, q);
  }

  lemma OtherPoises(c: Context, r: Reg, loops: seq<string>, last: string, e: string, other: string)
    requires Registry.Closed(c) && c.swaggerOwned == {} && Given(r, loops) && |loops| == 1 && last !in loops
    requires e in c.universe && other in c.universe && Body(c, e) == TEXT && Body(c, other) == COUNT && Strip(TEXT) != Strip(COUNT)
    requires ComponentNameFor(e) == Some(ANONYMOUS) == ComponentNameFor(other) && last != other && e !in loops && other !in loops
    ensures Poised(c, ResolveF(c, r, other).reg, last, e)
  {
    OtherUnmet(c, r, loops, other);
    UnmetEntered(c, r, other, ANONYMOUS);
    SecondMet(c, r, loops, last, e, other, ResolveF(c, r, other).reg);
  }

  lemma OtherMark(c: Context, e: string, other: string, q: Reg)
    requires ComponentNameFor(other).Some? && ComponentNameFor(e).Some? && Strip(Body(c, e)) != Strip(Body(c, other))
    requires q.byFingerprint.Keys == {Mark(c, other)}
    ensures Mark(c, e) !in q.byFingerprint
  {
  }

  /** Two definitions called `Anonymous`, and two anonymous ones. */
  lemma TwoAnonymousReplace(names: set<string>, e: string, other: string)
    requires e in names && other in names && e != other && |Anons(names)| >= 2
    requires ComponentNameFor(e) == Some(ANONYMOUS) && ComponentNameFor(other) == Some(ANONYMOUS)
    ensures CanReplace(names)
  {
    var chosen := SomeAnons(Anons(names), 2);
    var loops, last := [chosen[0]], chosen[1];
    var c := Graph(names, last, e, other);
    GraphLoops(names, loops, last, e, other);
    assert Body(c, other) == COUNT;
    FlatMarks();
    SecondReplaces(c, loops, last, e, other);
  }

  lemma SecondReplaces(c: Context, loops: seq<string>, last: string, e: string, other: string)
    requires Registry.Closed(c) && c.swaggerOwned == {} && Loops(c, loops) && |loops| == 1
    requires last in c.universe && last != loops[0] && ComponentNameFor(last).None? && Body(c, last) == Loop(last, [e])
    requires e in c.universe && other in c.universe && e != other && Body(c, e) == TEXT && Body(c, other) == COUNT
    requires ComponentNameFor(e) == Some(ANONYMOUS) == ComponentNameFor(other) && Strip(TEXT) != Strip(COUNT)
    ensures CanReplace(c.universe)
  {
    LoopsGiven(c, loops);
    var first := RunF(c, Initial(map[]), Conversions(loops)).reg;
    OtherPoises(c, first, loops, last, e, other);
    RunMore(c, Conversions(loops), other);
    PoisedReplaces(c, Conversions(loops) + [Convert(Ref(Some(other)))], last, e);
  }

  /**
    For any finite set of names of definitions: some graph over them, and some run, in which a component is
    stored over another exactly when a definition's short name is `Anonymous` with a number of at most as many
    as there are anonymous definitions, or two are called `Anonymous` and there are two anonymous ones.
  */
  lemma ReplacesExactlyWhen(names: set<string>)
    ensures CanReplace(names) <==> Clashing(names)
  {
    if Clashing(names) {
      if d :| d in names && NamedAsAnon(names, d) {
        var j: nat :| 1 <= j <= |Anons(names)| && ComponentNameFor(d) == Some(AnonymousName(j));
        NamedAsAnonReplaces(names, d, j);
      } else {
        var d, e :| d in names && e in names && d != e && ComponentNameFor(d) == Some(ANONYMOUS) && ComponentNameFor(e) == Some(ANONYMOUS);
        TwoAnonymousReplace(names, d, e);
      }
    } else if CanReplace(names) {
      var c: Context, swagger: map<string, Out>, ops: seq<Op> :|
        c.universe == names && Ordinary(c, swagger, ops) && !Once(RunT(c, Initial(swagger), ops));
      InitialOrdered(c, swagger);
      RunStoresOnce(c, Initial(swagger), ops);
    }
  }
}
