/**
  The names of anonymous components, in the order they are given: `Anonymous1`, `Anonymous2`, ... as far as
  there are anonymous definitions. When no named definition can be given one of these, they stay free.
*/
module RegistryOrder {
  import opened Options
  import opened JsonSchema
  import opened OpenApi
  import opened ComponentNames
  import opened Registry
  import opened RegistryInvariants
  import opened RegistrySafety

  function Anons(names: set<string>): set<string>
  {
    set d | d in names && ComponentNameFor(d).None?
  }

  /** The definition's short name is one that an anonymous component may be given. */
  predicate NamedAsAnon(names: set<string>, d: string)
  {
    exists j: nat | 1 <= j <= |Anons(names)| :: ComponentNameFor(d) == Some(AnonymousName(j))
  }

  /** Two definitions are called `Anonymous`, so that the second is numbered. */
  predicate TwoAnonymous(names: set<string>)
  {
    exists d, e | d in names && e in names && d != e ::
      ComponentNameFor(d) == Some(ANONYMOUS) && ComponentNameFor(e) == Some(ANONYMOUS)
  }

  /** A named definition can be given the name of an anonymous component. */
  predicate Clashing(names: set<string>)
  {
    || (exists d | d in names :: NamedAsAnon(names, d))
    || (|Anons(names)| >= 2 && TwoAnonymous(names))
  }

  // ----- numerals -----

  /** What a numeral begins with is a numeral. */
  lemma {:induction false} NumeralPrefix(j: nat, s: string, t: string) returns (m: nat)
    requires Decimal(j) == s + t && s != []
    ensures s == Decimal(m) && m <= j && (j > 0 ==> m > 0)
    decreases j
  {
    if t == [] {
      m := j;
      assert s + t == s;
    } else {
      var n := |s + t| - 1;
      assert j >= 10;
      assert Decimal(j)[..n] == Decimal(j / 10);
      assert (s + t)[..n] == s + t[..|t| - 1];
      m := NumeralPrefix(j / 10, s, t[..|t| - 1]);
    }
  }

  /** A number makes an anonymous component's name only of `Anonymous`, or of another such name. */
  lemma NumberedAnonymous(nice: string, k: nat, j: nat)
    requires AnonLike(nice) && nice + Decimal(k) == AnonymousName(j) && j > 0
    ensures nice == ANONYMOUS || exists m: nat | 1 <= m <= j :: nice == AnonymousName(m)
  {
    var s := nice[|ANONYMOUS|..];
    assert nice == ANONYMOUS + s;
    assert AnonymousName(j)[|ANONYMOUS|..] == Decimal(j);
    assert (nice + Decimal(k))[|ANONYMOUS|..] == s + Decimal(k);
    if s != [] {
      var m := NumeralPrefix(j, s, Decimal(k));
      assert nice == AnonymousName(m);
    }
  }

  lemma NumberedIsNotAnonymous(nice: string, k: nat)
    ensures nice + Decimal(k) != ANONYMOUS
  {
    DecimalRoundTrip(k);
    var name := nice + Decimal(k);
    assert IsDigit(name[|name| - 1]) by { assert name[|name| - 1] == Decimal(k)[|Decimal(k)| - 1]; }
  }

  // ----- the order -----

  /** How many anonymous definitions are among those given. */
  ghost function AnonsIn(c: Context, converted: set<string>): nat
  {
    |Anons(c.universe) * converted|
  }

  /** The names not given yet are free, and each given one belongs to a converted definition. */
  ghost predicate Ordered(c: Context, r: Reg)
  {
    && r.anon <= AnonsIn(c, r.converted.Keys)
    && (forall j: nat | r.anon < j <= |Anons(c.universe)| :: AnonymousName(j) !in r.schemas)
    && (ANONYMOUS in r.schemas ==> exists d | d in c.universe && d in r.converted :: ComponentNameFor(d) == Some(ANONYMOUS))
  }

  /** A later state; no name given before it was entered meanwhile. */
  ghost predicate Later(c: Context, r: Reg, r': Reg)
  {
    && Ordered(c, r')
    && r.anon <= r'.anon
    && (forall j: nat | 1 <= j <= r.anon && AnonymousName(j) in r'.schemas :: AnonymousName(j) in r.schemas)
  }

  lemma LaterThen(c: Context, r: Reg, r1: Reg, r2: Reg)
    requires Later(c, r, r1) && Later(c, r1, r2)
    ensures Later(c, r, r2)
  {
  }

  lemma ConvertedGrow(c: Context, r: Reg, r': Reg)
    requires r.converted.Keys <= r'.converted.Keys
    ensures AnonsIn(c, r.converted.Keys) <= AnonsIn(c, r'.converted.Keys)
  {
    var a, b := Anons(c.universe) * r.converted.Keys, Anons(c.universe) * r'.converted.Keys;
    assert b == a + (b - a);
  }

  lemma OneMoreAnon(c: Context, r: Reg, d: string)
    requires d in c.universe && ComponentNameFor(d).None? && d !in r.converted
    ensures AnonsIn(c, r.converted.Keys + {d}) == AnonsIn(c, r.converted.Keys) + 1 <= |Anons(c.universe)|
  {
    var a := Anons(c.universe) * r.converted.Keys;
    assert Anons(c.universe) * (r.converted.Keys + {d}) == a + {d};
    assert Anons(c.universe) == (a + {d}) + (Anons(c.universe) - (a + {d}));
  }

  /** A named definition is given none of the names of anonymous components. */
  lemma NamedApart(c: Context, r: Reg, d: string, nice: string, j: nat)
    requires Ordered(c, r) && !Clashing(c.universe) && d in c.universe && d !in r.converted
    requires ComponentNameFor(d) == Some(nice) && 1 <= j <= |Anons(c.universe)|
    ensures FreeName(r.schemas.Keys, nice) != AnonymousName(j)
  {
    assert !NamedAsAnon(c.universe, d);
    if nice in r.schemas {
      var k := FreeIndex(r.schemas.Keys, nice, 2);
      if nice + Decimal(k) == AnonymousName(j) {
        AnonymousIsAnonLike(j);
        if !AnonLike(nice) { FreeNameNotAnonLike(r.schemas.Keys, nice); }
        NumberedAnonymous(nice, k, j);
        assert nice == ANONYMOUS;
        NumberedDistinct(ANONYMOUS, k, j);
        assert TwoAnonymous(c.universe);
      }
    }
  }

  /** Only a definition of that name is given the name `Anonymous`. */
  lemma NamedAnonymous(r: Reg, nice: string)
    ensures FreeName(r.schemas.Keys, nice) == ANONYMOUS ==> nice == ANONYMOUS
  {
    if nice in r.schemas { NumberedIsNotAnonymous(nice, FreeIndex(r.schemas.Keys, nice, 2)); }
  }

  // ----- every conversion keeps the order -----

  lemma {:induction false} ConvertLater(c: Context, r: Reg, s: Schema)
    requires Registry.Closed(c) && RefsIn(s, c.universe) && !Clashing(c.universe) && Ordered(c, r)
    ensures Later(c, r, ConvertF(c, r, s).reg)
    decreases Todo(c, r), Open(c, r), s, 2
  {
    match s
    case Ref(Some(d)) => ResolveLater(c, r, d);
    case Obj(es) => EntriesLater(c, r, es);
    case _ =>
  }

  lemma {:induction false} EntriesLater(c: Context, r: Reg, es: seq<Entry>)
    requires Registry.Closed(c) && EntriesRefsIn(es, c.universe) && !Clashing(c.universe) && Ordered(c, r)
    ensures Later(c, r, EntriesF(c, r, es).reg)
    decreases Todo(c, r), Open(c, r), es, 1
  {
    if es != [] {
      var n := |es| - 1;
      var before := EntriesF(c, r, es[..n]);
      EntriesLater(c, r, es[..n]);
      TodoShrinks(c, r, before.reg);
      if es[n].Group? { KidsLater(c, before.reg, es[n].kids); }
    }
  }

  lemma {:induction false} KidsLater(c: Context, r: Reg, kids: seq<Kid>)
    requires Registry.Closed(c) && KidsRefsIn(kids, c.universe) && !Clashing(c.universe) && Ordered(c, r)
    ensures Later(c, r, KidsF(c, r, kids).reg)
    decreases Todo(c, r), Open(c, r), kids, 1
  {
    if kids != [] {
      var n := |kids| - 1;
      var before := KidsF(c, r, kids[..n]);
      KidsLater(c, r, kids[..n]);
      TodoShrinks(c, r, before.reg);
      ConvertLater(c, before.reg, kids[n].schema);
    }
  }

  lemma {:induction false} ResolveLater(c: Context, r: Reg, d: string)
    requires Registry.Closed(c) && d in c.universe && !Clashing(c.universe) && Ordered(c, r)
    ensures Later(c, r, ResolveF(c, r, d).reg)
    decreases Todo(c, r), Open(c, r), Ref(Some(d)), 1
  {
    var p := PlanFor(c, r, d);
    if p.Known? {
      KnownLater(c, r, d);
    } else {
      PlanLater(c, r, d);
      PlanDescends(c, r, d);
      BodyLater(c, r, d, p.start);
      ResolveLaterFrom(c, r, d, p);
    }
  }

  lemma {:induction false} BodyLater(c: Context, r: Reg, d: string, start: Reg)
    requires Registry.Closed(c) && d in c.universe && !Clashing(c.universe) && Ordered(c, start) && Descends(c, r, start)
    ensures Later(c, start, Converted(c, d, start).reg)
    decreases Todo(c, r), Open(c, r), Ref(Some(d)), 0
  {
    BodyRefsIn(c, d);
    ConvertLater(c, start, Body(c, d));
  }

  lemma KnownLater(c: Context, r: Reg, d: string)
    requires Ordered(c, r) && PlanFor(c, r, d).Known?
    ensures Later(c, r, PlanFor(c, r, d).reg)
  {
    KnownPlan(c, r, d);
    ConvertedGrow(c, r, PlanFor(c, r, d).reg);
    StoresStay(c, r, PlanFor(c, r, d).reg);
  }

  lemma KnownPlan(c: Context, r: Reg, d: string)
    requires PlanFor(c, r, d).Known?
    ensures PlanFor(c, r, d).reg.schemas == r.schemas && PlanFor(c, r, d).reg.anon == r.anon
  {
  }

  lemma StoresStay(c: Context, r: Reg, r': Reg)
    requires Ordered(c, r) && r'.schemas == r.schemas && r.converted.Keys <= r'.converted.Keys
    requires r.anon <= r'.anon <= AnonsIn(c, r'.converted.Keys)
    ensures Later(c, r, r')
  {
  }

  lemma ResolveLaterFrom(c: Context, r: Reg, d: string, p: Plan)
    requires Registry.Closed(c) && d in c.universe && !Clashing(c.universe) && Ordered(c, r)
    requires p == PlanFor(c, r, d) && !p.Known? && Later(c, r, p.start)
    requires Later(c, p.start, Converted(c, d, p.start).reg)
    ensures Later(c, r, ResolveF(c, r, d).reg)
  {
    var done := Converted(c, d, p.start);
    LaterThen(c, r, p.start, done.reg);
    if p.Component? {
      ComponentStored(c, r, d, done);
    } else {
      assert ResolveF(c, r, d).reg == done.reg.(inlining := done.reg.inlining - {d});
    }
  }

  /** The next name is free. */
  lemma NextName(c: Context, r: Reg, d: string)
    requires Ordered(c, r) && d in c.universe && d !in r.converted && ComponentNameFor(d).None?
    ensures r.anon + 1 <= |Anons(c.universe)| && AnonymousName(r.anon + 1) !in r.schemas
  {
    OneMoreAnon(c, r, d);
  }

  /** What planning a component does: a name, and a state with one more definition converted. */
  lemma NamedPlan(c: Context, r: Reg, d: string, nice: string)
    requires PlanFor(c, r, d).Component? && ComponentNameFor(d) == Some(nice)
    ensures var p := PlanFor(c, r, d);
      p.name == FreeName(r.schemas.Keys, nice) && p.start.schemas == r.schemas[p.name := EMPTY] && p.start.anon == r.anon
  {
  }

  lemma AnonymousPlan(c: Context, r: Reg, d: string)
    requires PlanFor(c, r, d).Component? && ComponentNameFor(d).None?
    ensures var p := PlanFor(c, r, d);
      && p.name == FreeName(r.schemas.Keys, AnonymousName(r.anon + 1))
      && p.start.schemas == r.schemas && p.start.anon == r.anon + 1
      && d !in r.converted && p.start.converted.Keys == r.converted.Keys + {d}
  {
  }

  lemma PlanLater(c: Context, r: Reg, d: string)
    requires Ordered(c, r) && !Clashing(c.universe) && d in c.universe && !PlanFor(c, r, d).Known?
    ensures Later(c, r, PlanFor(c, r, d).start)
  {
    var p := PlanFor(c, r, d);
    if p.Inline? {
      StoresStay(c, r, p.start);
    } else if ComponentNameFor(d).Some? {
      NamedPlan(c, r, d, ComponentNameFor(d).value);
      NamedBegins(c, r, d, ComponentNameFor(d).value, p);
    } else {
      AnonymousPlan(c, r, d);
      AnonymousBegins(c, r, d, p.start);
    }
  }

  lemma NamedBegins(c: Context, r: Reg, d: string, nice: string, p: Plan)
    requires Ordered(c, r) && !Clashing(c.universe) && d in c.universe && d !in r.converted && ComponentNameFor(d) == Some(nice)
    requires p.Component? && p.name == FreeName(r.schemas.Keys, nice) && p.start.schemas == r.schemas[p.name := EMPTY]
    requires p.start.anon == r.anon && p.start.converted == r.converted[d := ORef(p.name)]
    ensures Later(c, r, p.start)
  {
    ConvertedGrow(c, r, p.start);
    OrderedBound(c, r);
    NamedAnonymous(r, nice);
    forall j: nat | 1 <= j <= |Anons(c.universe)| ensures AnonymousName(j) != p.name { NamedApart(c, r, d, nice, j); }
  }

  lemma AnonymousBegins(c: Context, r: Reg, d: string, start: Reg)
    requires Ordered(c, r) && d in c.universe && d !in r.converted && ComponentNameFor(d).None?
    requires start.schemas == r.schemas && start.anon == r.anon + 1 && start.converted.Keys == r.converted.Keys + {d}
    ensures Later(c, r, start)
  {
    OneMoreAnon(c, r, d);
    StoresStay(c, r, start);
  }

  lemma ComponentStored(c: Context, r: Reg, d: string, done: Result<Out>)
    requires Ordered(c, r) && !Clashing(c.universe) && d in c.universe && PlanFor(c, r, d).Component?
    requires Later(c, r, done.reg) && PlanFor(c, r, d).start.anon <= done.reg.anon
    requires PlanFor(c, r, d).start.converted.Keys <= done.reg.converted.Keys
    ensures Later(c, r, Store(done.reg, PlanFor(c, r, d).name, done.out))
  {
    var p := PlanFor(c, r, d);
    match ComponentNameFor(d)
    case Some(nice) =>
      NamedPlan(c, r, d, nice);
      NamedStored(c, r, d, nice, done);
    case None =>
      AnonymousPlan(c, r, d);
      NextName(c, r, d);
      NextStored(c, r, done.reg, done.out);
  }

  lemma NamedStored(c: Context, r: Reg, d: string, nice: string, done: Result<Out>)
    requires Ordered(c, r) && !Clashing(c.universe) && d in c.universe && d !in r.converted && ComponentNameFor(d) == Some(nice)
    requires Later(c, r, done.reg) && d in done.reg.converted
    ensures Later(c, r, Store(done.reg, FreeName(r.schemas.Keys, nice), done.out))
  {
    NamedAnonymous(r, nice);
    var name := FreeName(r.schemas.Keys, nice);
    forall j: nat | 1 <= j <= |Anons(c.universe)| ensures AnonymousName(j) != name { NamedApart(c, r, d, nice, j); }
    OrderedBound(c, r);
    OrderedBound(c, done.reg);
  }

  lemma OrderedBound(c: Context, r: Reg)
    requires Ordered(c, r)
    ensures r.anon <= |Anons(c.universe)|
  {
    var a := Anons(c.universe) * r.converted.Keys;
    assert Anons(c.universe) == a + (Anons(c.universe) - a);
  }

  lemma NextStored(c: Context, r: Reg, done: Reg, o: Out)
    requires r.anon + 1 <= done.anon && Later(c, r, done)
    ensures Later(c, r, Store(done, AnonymousName(r.anon + 1), o))
  {
    forall j: nat | AnonymousName(j) == AnonymousName(r.anon + 1) ensures j == r.anon + 1 {
      NumberedDistinct(ANONYMOUS, j, r.anon + 1);
    }
    NumberedIsNotAnonymous(ANONYMOUS, r.anon + 1);
  }
}
