/**
  Every store of a conversion, in order: replaying the stores gives the state, and no store replaces what
  another one has put.
*/
module RegistryTrace {
  import opened Options
  import opened Sequences
  import opened JsonSchema
  import opened OpenApi
  import opened ComponentNames
  import opened Registry
  import opened RegistryInvariants
  import opened RegistrySafety
  import opened RegistryOrder
  import opened RegistryRuns

  /** A placeholder under a new name, or a finished component. */
  datatype Write = Reserve(name: string) | Put(name: string, out: Out)

  function Names(writes: seq<Write>): (names: set<string>)
  {
    set w | w in writes :: w.name
  }

  function Apply(schemas: map<string, Out>, w: Write): map<string, Out>
  {
    schemas[w.name := if w.Put? then w.out else EMPTY]
  }

  function Replay(schemas: map<string, Out>, writes: seq<Write>): map<string, Out>
  {
    if writes == [] then schemas
    else Apply(Replay(schemas, writes[..|writes| - 1]), writes[|writes| - 1])
  }

  // ----- the stores of each call -----

  function ConvertT(c: Context, r: Reg, s: Schema): seq<Write>
    requires Registry.Closed(c) && RefsIn(s, c.universe)
    decreases Todo(c, r), Open(c, r), s, 1
  {
    match s
    case Ref(Some(d)) => ResolveT(c, r, d)
    case Obj(es) => EntriesT(c, r, es)
    case _ => []
  }

  function EntriesT(c: Context, r: Reg, es: seq<Entry>): seq<Write>
    requires Registry.Closed(c) && EntriesRefsIn(es, c.universe)
    decreases Todo(c, r), Open(c, r), es, 0
  {
    if es == [] then []
    else
      var n := |es| - 1;
      var before := EntriesF(c, r, es[..n]);
      TodoShrinks(c, r, before.reg);
      EntriesT(c, r, es[..n]) + (if es[n].Group? then KidsT(c, before.reg, es[n].kids) else [])
  }

  function KidsT(c: Context, r: Reg, kids: seq<Kid>): seq<Write>
    requires Registry.Closed(c) && KidsRefsIn(kids, c.universe)
    decreases Todo(c, r), Open(c, r), kids, 0
  {
    if kids == [] then []
    else
      var n := |kids| - 1;
      var before := KidsF(c, r, kids[..n]);
      TodoShrinks(c, r, before.reg);
      KidsT(c, r, kids[..n]) + ConvertT(c, before.reg, kids[n].schema)
  }

  /** The placeholder, if any; the stores of the body; the component itself. */
  function ResolveT(c: Context, r: Reg, d: string): seq<Write>
    requires Registry.Closed(c) && d in c.universe
    decreases Todo(c, r), Open(c, r), Ref(Some(d)), 0
  {
    BodyRefsIn(c, d);
    match PlanFor(c, r, d)
    case Known(_, _) => []
    case Component(name, start) =>
      TodoFewer(c, r, d, start);
      Around(ComponentNameFor(d).Some?, name, ConvertT(c, start, Body(c, d)), ConvertF(c, start, Body(c, d)).out)
    case Inline(start) =>
      OpenFewer(c, r, d, start);
      ConvertT(c, start, Body(c, d))
  }

  function Around(named: bool, name: string, body: seq<Write>, out: Out): seq<Write>
  {
    Placeholder(named, name) + body + [Put(name, out)]
  }

  // ----- the stores are those of the state -----

  /** The stores lead from one state's components to the other's, and none touches a component of the first. */
  ghost predicate Traced(r: Reg, writes: seq<Write>, r': Reg)
  {
    r'.schemas == Replay(r.schemas, writes) && Names(writes) !! r.schemas.Keys
  }

  lemma {:induction false} ReplayMore(schemas: map<string, Out>, a: seq<Write>, b: seq<Write>)
    ensures Replay(schemas, a + b) == Replay(Replay(schemas, a), b)
  {
    if b == [] {
      assert a + b == a;
    } else {
      var n := |b| - 1;
      ReplayMore(schemas, a, b[..n]);
      LastSplit(b);
      Assoc(a, b[..n], [b[n]]);
      LastOf(a + b[..n], b[n]);
    }
  }

  lemma LastOf(a: seq<Write>, w: Write)
    ensures (a + [w])[..|a|] == a && (a + [w])[|a|] == w
  {
  }

  lemma NamesMore(a: seq<Write>, b: seq<Write>)
    ensures Names(a + b) == Names(a) + Names(b)
  {
    forall w | w in a || w in b ensures w in a + b {}
  }

  lemma {:induction false} ReplayKeys(schemas: map<string, Out>, writes: seq<Write>)
    ensures Replay(schemas, writes).Keys == schemas.Keys + Names(writes)
  {
    if writes != [] {
      var n := |writes| - 1;
      ReplayKeys(schemas, writes[..n]);
      LastSplit(writes);
      NamesMore(writes[..n], [writes[n]]);
    }
  }

  lemma TracedThen(r: Reg, a: seq<Write>, r1: Reg, b: seq<Write>, r2: Reg)
    requires Traced(r, a, r1) && Traced(r1, b, r2)
    ensures Traced(r, a + b, r2)
  {
    ReplayMore(r.schemas, a, b);
    ReplayKeys(r.schemas, a);
    NamesMore(a, b);
  }

  lemma {:induction false} ConvertTraced(c: Context, r: Reg, s: Schema)
    requires Registry.Closed(c) && RefsIn(s, c.universe)
    ensures Traced(r, ConvertT(c, r, s), ConvertF(c, r, s).reg)
    decreases Todo(c, r), Open(c, r), s, 2
  {
    match s
    case Ref(Some(d)) => ResolveTraced(c, r, d);
    case Obj(es) => EntriesTraced(c, r, es);
    case _ =>
  }

  lemma {:induction false} EntriesTraced(c: Context, r: Reg, es: seq<Entry>)
    requires Registry.Closed(c) && EntriesRefsIn(es, c.universe)
    ensures Traced(r, EntriesT(c, r, es), EntriesF(c, r, es).reg)
    decreases Todo(c, r), Open(c, r), es, 0
  {
    if es != [] {
      var n := |es| - 1;
      var before := EntriesF(c, r, es[..n]);
      EntriesTraced(c, r, es[..n]);
      TodoShrinks(c, r, before.reg);
      if es[n].Group? {
        KidsTraced(c, before.reg, es[n].kids);
        TracedThen(r, EntriesT(c, r, es[..n]), before.reg, KidsT(c, before.reg, es[n].kids), EntriesF(c, r, es).reg);
      } else {
        TracedThen(r, EntriesT(c, r, es[..n]), before.reg, [], EntriesF(c, r, es).reg);
      }
    }
  }

  lemma {:induction false} KidsTraced(c: Context, r: Reg, kids: seq<Kid>)
    requires Registry.Closed(c) && KidsRefsIn(kids, c.universe)
    ensures Traced(r, KidsT(c, r, kids), KidsF(c, r, kids).reg)
    decreases Todo(c, r), Open(c, r), kids, 0
  {
    if kids != [] {
      var n := |kids| - 1;
      var before := KidsF(c, r, kids[..n]);
      KidsTraced(c, r, kids[..n]);
      TodoShrinks(c, r, before.reg);
      ConvertTraced(c, before.reg, kids[n].schema);
      TracedThen(r, KidsT(c, r, kids[..n]), before.reg, ConvertT(c, before.reg, kids[n].schema), KidsF(c, r, kids).reg);
    }
  }

  /** The stores of a definition's body, converted from `start`. */
  function BodyT(c: Context, d: string, start: Reg): seq<Write>
    requires Registry.Closed(c)
  {
    BodyRefsIn(c, d);
    ConvertT(c, start, Body(c, d))
  }

  lemma ResolveSteps(c: Context, r: Reg, d: string, p: Plan)
    requires Registry.Closed(c) && d in c.universe && p == PlanFor(c, r, d)
    ensures p.Known? ==> ResolveT(c, r, d) == [] && ResolveF(c, r, d) == Result(p.out, p.reg)
    ensures p.Component? ==> var done := Converted(c, d, p.start);
      && ResolveT(c, r, d) == Around(ComponentNameFor(d).Some?, p.name, BodyT(c, d, p.start), done.out)
      && ResolveF(c, r, d).reg == Store(done.reg, p.name, done.out)
    ensures p.Inline? ==>
      && ResolveT(c, r, d) == BodyT(c, d, p.start)
      && ResolveF(c, r, d).reg.schemas == Converted(c, d, p.start).reg.schemas
  {
  }

  lemma {:induction false} ResolveTraced(c: Context, r: Reg, d: string)
    requires Registry.Closed(c) && d in c.universe
    ensures Traced(r, ResolveT(c, r, d), ResolveF(c, r, d).reg)
    decreases Todo(c, r), Open(c, r), Ref(Some(d)), 1
  {
    var p := PlanFor(c, r, d);
    if !p.Known? {
      PlanDescends(c, r, d);
      BodyTraced(c, r, d, p.start);
    }
    ResolveTracedFrom(c, r, d, p);
  }

  lemma ResolveTracedFrom(c: Context, r: Reg, d: string, p: Plan)
    requires Registry.Closed(c) && d in c.universe && p == PlanFor(c, r, d)
    requires !p.Known? ==> Traced(p.start, BodyT(c, d, p.start), Converted(c, d, p.start).reg)
    ensures Traced(r, ResolveT(c, r, d), ResolveF(c, r, d).reg)
  {
    ResolveSteps(c, r, d, p);
    if p.Component? {
      PlanIsFree(c, r, d);
      AroundTraced(r, ComponentNameFor(d).Some?, p.name, p.start, BodyT(c, d, p.start), Converted(c, d, p.start));
    }
  }

  lemma {:induction false} BodyTraced(c: Context, r: Reg, d: string, start: Reg)
    requires Registry.Closed(c) && d in c.universe && Descends(c, r, start)
    ensures Traced(start, BodyT(c, d, start), Converted(c, d, start).reg)
    decreases Todo(c, r), Open(c, r), Ref(Some(d)), 0
  {
    BodyRefsIn(c, d);
    ConvertTraced(c, start, Body(c, d));
  }

  /** A component is given a name that is free; a named definition's placeholder is entered at once. */
  lemma PlanIsFree(c: Context, r: Reg, d: string)
    requires PlanFor(c, r, d).Component?
    ensures var p := PlanFor(c, r, d);
      p.name !in r.schemas
      && p.start.schemas == if ComponentNameFor(d).Some? then r.schemas[p.name := EMPTY] else r.schemas
  {
  }

  function Placeholder(named: bool, name: string): seq<Write>
  {
    if named then [Reserve(name)] else []
  }

  lemma PlaceholderTraced(r: Reg, named: bool, name: string, start: Reg)
    requires name !in r.schemas && start.schemas == (if named then r.schemas[name := EMPTY] else r.schemas)
    ensures Traced(r, Placeholder(named, name), start)
  {
    if named { assert [Reserve(name)][..0] == []; }
  }

  lemma PutReplays(schemas: map<string, Out>, writes: seq<Write>, name: string, out: Out)
    ensures Replay(schemas, writes + [Put(name, out)]) == Replay(schemas, writes)[name := out]
    ensures Names(writes + [Put(name, out)]) == Names(writes) + {name}
  {
    LastOf(writes, Put(name, out));
    NamesMore(writes, [Put(name, out)]);
  }

  lemma AroundTraced(r: Reg, named: bool, name: string, start: Reg, body: seq<Write>, done: Result<Out>)
    requires name !in r.schemas && start.schemas == (if named then r.schemas[name := EMPTY] else r.schemas)
    requires Traced(start, body, done.reg)
    ensures Traced(r, Around(named, name, body, done.out), Store(done.reg, name, done.out))
  {
    PlaceholderTraced(r, named, name, start);
    TracedThen(r, Placeholder(named, name), start, body, done.reg);
    PutReplays(r.schemas, Placeholder(named, name) + body, name, done.out);
  }

  // ----- no store replaces a finished component -----

  /** A name is written twice only as a placeholder first and as the component it stands for after. */
  ghost predicate Once(writes: seq<Write>)
  {
    forall i, j | 0 <= i < j < |writes| && writes[i].name == writes[j].name :: writes[i].Reserve? && writes[j].Put?
  }

  lemma OnceThen(a: seq<Write>, b: seq<Write>)
    requires Once(a) && Once(b) && Names(a) !! Names(b)
    ensures Once(a + b)
  {
    var both := a + b;
    forall i, j | 0 <= i < |a| && 0 <= j < |b| ensures a[i].name != b[j].name {
      assert a[i].name in Names(a) && b[j].name in Names(b);
    }
    assert forall i | 0 <= i < |both| :: both[i] == if i < |a| then a[i] else b[i - |a|];
  }

  lemma TracedOnceThen(r: Reg, a: seq<Write>, r1: Reg, b: seq<Write>, r2: Reg)
    requires Traced(r, a, r1) && Traced(r1, b, r2) && Once(a) && Once(b)
    ensures Once(a + b)
  {
    ReplayKeys(r.schemas, a);
    OnceThen(a, b);
  }

  lemma AroundOnce(named: bool, name: string, body: seq<Write>, out: Out)
    requires Once(body) && name !in Names(body)
    ensures Once(Around(named, name, body, out))
  {
    var first := Placeholder(named, name);
    var all := Around(named, name, body, out);
    forall i, j | 0 <= i < j < |all| && all[i].name == all[j].name ensures all[i].Reserve? && all[j].Put? {
      if |first| <= i < |first| + |body| { assert all[i] == body[i - |first|]; assert all[i].name in Names(body); }
      if |first| <= j < |first| + |body| { assert all[j] == body[j - |first|]; assert all[j].name in Names(body); }
    }
  }

  ghost predicate AllNamed(c: Context)
  {
    forall d | d in c.universe :: ComponentNameFor(d).Some?
  }

  /**
    Either there is no anonymous definition, or no named one has a short name `Anonymous<digits>`, or the
    anonymous components get their names in order and no named definition is given one of these.
  */
  ghost predicate Unclashed(c: Context, r: Reg)
  {
    AllNamed(c) || (NoAnonNames(c) && Inv(c, r)) || (!Clashing(c.universe) && Ordered(c, r))
  }

  lemma ConvertUnclashed(c: Context, r: Reg, s: Schema)
    requires Registry.Closed(c) && RefsIn(s, c.universe) && Unclashed(c, r)
    ensures Unclashed(c, ConvertF(c, r, s).reg)
  {
    if NoAnonNames(c) && Inv(c, r) { ConvertKeeps(c, r, s); }
    if !Clashing(c.universe) && Ordered(c, r) { ConvertLater(c, r, s); }
  }

  lemma EntriesUnclashed(c: Context, r: Reg, es: seq<Entry>)
    requires Registry.Closed(c) && EntriesRefsIn(es, c.universe) && Unclashed(c, r)
    ensures Unclashed(c, EntriesF(c, r, es).reg)
  {
    if NoAnonNames(c) && Inv(c, r) { EntriesKeep(c, r, es); }
    if !Clashing(c.universe) && Ordered(c, r) { EntriesLater(c, r, es); }
  }

  lemma KidsUnclashed(c: Context, r: Reg, kids: seq<Kid>)
    requires Registry.Closed(c) && KidsRefsIn(kids, c.universe) && Unclashed(c, r)
    ensures Unclashed(c, KidsF(c, r, kids).reg)
  {
    if NoAnonNames(c) && Inv(c, r) { KidsKeep(c, r, kids); }
    if !Clashing(c.universe) && Ordered(c, r) { KidsLater(c, r, kids); }
  }

  lemma PlanUnclashed(c: Context, r: Reg, d: string)
    requires Registry.Closed(c) && d in c.universe && Unclashed(c, r) && !PlanFor(c, r, d).Known?
    ensures Unclashed(c, PlanFor(c, r, d).start)
  {
    if NoAnonNames(c) && Inv(c, r) { PlanKeeps(c, r, d); }
    if !Clashing(c.universe) && Ordered(c, r) { PlanLater(c, r, d); }
  }

  lemma {:induction false} ConvertOnce(c: Context, r: Reg, s: Schema)
    requires Registry.Closed(c) && RefsIn(s, c.universe) && Unclashed(c, r)
    ensures Once(ConvertT(c, r, s))
    decreases Todo(c, r), Open(c, r), s, 2
  {
    match s
    case Ref(Some(d)) => ResolveOnce(c, r, d);
    case Obj(es) => EntriesOnce(c, r, es);
    case _ =>
  }

  lemma {:induction false} EntriesOnce(c: Context, r: Reg, es: seq<Entry>)
    requires Registry.Closed(c) && EntriesRefsIn(es, c.universe) && Unclashed(c, r)
    ensures Once(EntriesT(c, r, es))
    decreases Todo(c, r), Open(c, r), es, 1
  {
    if es != [] {
      var n := |es| - 1;
      var before := EntriesF(c, r, es[..n]);
      EntriesOnce(c, r, es[..n]);
      EntriesTraced(c, r, es[..n]);
      EntriesUnclashed(c, r, es[..n]);
      if es[n].Group? {
        LastGroupOnce(c, r, es, before.reg, EntriesT(c, r, es[..n]));
      } else {
        OnceThen(EntriesT(c, r, es[..n]), []);
      }
    }
  }

  lemma {:induction false} LastGroupOnce(c: Context, r: Reg, es: seq<Entry>, reg: Reg, first: seq<Write>)
    requires Registry.Closed(c) && EntriesRefsIn(es, c.universe) && es != [] && es[|es| - 1].Group?
    requires r.converted.Keys <= reg.converted.Keys && reg.inlining == r.inlining && Unclashed(c, reg)
    requires Traced(r, first, reg) && Once(first)
    ensures Once(first + KidsT(c, reg, es[|es| - 1].kids))
    decreases Todo(c, r), Open(c, r), es, 0
  {
    var kids := es[|es| - 1].kids;
    TodoShrinks(c, r, reg);
    KidsOnce(c, reg, kids);
    KidsTraced(c, reg, kids);
    TracedOnceThen(r, first, reg, KidsT(c, reg, kids), KidsF(c, reg, kids).reg);
  }

  lemma {:induction false} KidsOnce(c: Context, r: Reg, kids: seq<Kid>)
    requires Registry.Closed(c) && KidsRefsIn(kids, c.universe) && Unclashed(c, r)
    ensures Once(KidsT(c, r, kids))
    decreases Todo(c, r), Open(c, r), kids, 0
  {
    if kids != [] {
      var n := |kids| - 1;
      var before := KidsF(c, r, kids[..n]);
      KidsOnce(c, r, kids[..n]);
      KidsTraced(c, r, kids[..n]);
      KidsUnclashed(c, r, kids[..n]);
      TodoShrinks(c, r, before.reg);
      ConvertOnce(c, before.reg, kids[n].schema);
      ConvertTraced(c, before.reg, kids[n].schema);
      TracedOnceThen(r, KidsT(c, r, kids[..n]), before.reg, ConvertT(c, before.reg, kids[n].schema), KidsF(c, r, kids).reg);
    }
  }

  lemma {:induction false} ResolveOnce(c: Context, r: Reg, d: string)
    requires Registry.Closed(c) && d in c.universe && Unclashed(c, r)
    ensures Once(ResolveT(c, r, d))
    decreases Todo(c, r), Open(c, r), Ref(Some(d)), 1
  {
    var p := PlanFor(c, r, d);
    ResolveSteps(c, r, d, p);
    if !p.Known? {
      PlanUnclashed(c, r, d);
      PlanDescends(c, r, d);
      BodyOnce(c, r, d, p.start);
      if p.Component? {
        NameStaysFree(c, r, d, p);
        AroundOnce(ComponentNameFor(d).Some?, p.name, BodyT(c, d, p.start), Converted(c, d, p.start).out);
      }
    }
  }

  lemma {:induction false} BodyOnce(c: Context, r: Reg, d: string, start: Reg)
    requires Registry.Closed(c) && d in c.universe && Descends(c, r, start) && Unclashed(c, start)
    ensures Once(BodyT(c, d, start))
    decreases Todo(c, r), Open(c, r), Ref(Some(d)), 0
  {
    BodyRefsIn(c, d);
    ConvertOnce(c, start, Body(c, d));
  }

  /** The component's name is not written while its body is converted. */
  lemma NameStaysFree(c: Context, r: Reg, d: string, p: Plan)
    requires Registry.Closed(c) && d in c.universe && p == PlanFor(c, r, d) && p.Component? && Unclashed(c, r)
    ensures p.name !in Names(BodyT(c, d, p.start))
  {
    BodyRefsIn(c, d);
    PlanIsFree(c, r, d);
    ConvertTraced(c, p.start, Body(c, d));
    if ComponentNameFor(d).None? {
      if !Clashing(c.universe) && Ordered(c, r) { NextStaysFree(c, r, d, p); } else { AnonymousStaysFree(c, r, d, p); }
    }
  }

  /** In order: the name given is not written by anything converted after. */
  lemma NextStaysFree(c: Context, r: Reg, d: string, p: Plan)
    requires Registry.Closed(c) && d in c.universe && p == PlanFor(c, r, d) && p.Component? && ComponentNameFor(d).None?
    requires !Clashing(c.universe) && Ordered(c, r)
    requires Traced(p.start, BodyT(c, d, p.start), Converted(c, d, p.start).reg)
    ensures p.name !in Names(BodyT(c, d, p.start))
  {
    AnonymousPlan(c, r, d);
    NextName(c, r, d);
    PlanLater(c, r, d);
    BodyRefsIn(c, d);
    ConvertLater(c, p.start, Body(c, d));
    ReplayKeys(p.start.schemas, BodyT(c, d, p.start));
  }

  lemma AnonymousStaysFree(c: Context, r: Reg, d: string, p: Plan)
    requires Registry.Closed(c) && d in c.universe && p == PlanFor(c, r, d) && p.Component? && NoAnonNames(c) && Inv(c, r)
    requires Traced(p.start, BodyT(c, d, p.start), Converted(c, d, p.start).reg)
    ensures p.name !in p.start.schemas ==> p.name !in Names(BodyT(c, d, p.start))
  {
    PlanKeeps(c, r, d);
    PlanDescends(c, r, d);
    BodyKeeps(c, r, d, p.start);
    ReplayKeys(p.start.schemas, BodyT(c, d, p.start));
    StoreFresh(r, p.start, p.name, Converted(c, d, p.start).reg);
  }

  /**
    One component's store, whatever the definitions are called: it finds nothing or its own placeholder, or,
    exactly when an anonymous component's name is written while its body is converted, another's component.
  */
  lemma StoreReplacesExactlyWhen(c: Context, r: Reg, d: string)
    requires Registry.Closed(c) && d in c.universe && PlanFor(c, r, d).Component?
    ensures var p := PlanFor(c, r, d);
      var done := Converted(c, d, p.start).reg;
      if ComponentNameFor(d).Some? then p.name in done.schemas && done.schemas[p.name] == EMPTY
      else p.name in done.schemas <==> p.name in Names(BodyT(c, d, p.start))
  {
    var p := PlanFor(c, r, d);
    BodyRefsIn(c, d);
    PlanIsFree(c, r, d);
    ConvertTraced(c, p.start, Body(c, d));
    ReplayKeys(p.start.schemas, BodyT(c, d, p.start));
    if ComponentNameFor(d).Some? { ReplayElsewhere(p.start.schemas, BodyT(c, d, p.start), p.name); }
  }

  lemma {:induction false} ReplayElsewhere(schemas: map<string, Out>, writes: seq<Write>, n: string)
    requires n !in Names(writes)
    ensures n in schemas ==> n in Replay(schemas, writes) && Replay(schemas, writes)[n] == schemas[n]
  {
    if writes != [] {
      LastSplit(writes);
      NamesMore(writes[..|writes| - 1], [writes[|writes| - 1]]);
      assert writes[|writes| - 1] in writes;
      ReplayElsewhere(schemas, writes[..|writes| - 1], n);
    }
  }

  // ----- whole runs -----

  function StepT(c: Context, r: Reg, op: Op): seq<Write>
    requires Registry.Closed(c) && RefsIn(op.schema, c.universe)
  {
    var res := ConvertF(c, r, op.schema);
    ConvertT(c, r, op.schema)
    + (if op.Add? then [Put(FreeName(res.reg.schemas.Keys, op.wanted), res.out)] else [])
  }

  function RunT(c: Context, r: Reg, ops: seq<Op>): seq<Write>
    requires Registry.Closed(c) && forall i | 0 <= i < |ops| :: RefsIn(ops[i].schema, c.universe)
  {
    if ops == [] then []
    else
      var n := |ops| - 1;
      RunT(c, r, ops[..n]) + StepT(c, RunF(c, r, ops[..n]).reg, ops[n])
  }

  lemma OneWrite(w: Write)
    ensures Once([w]) && Names([w]) == {w.name} && forall schemas :: Replay(schemas, [w]) == Apply(schemas, w)
  {
    assert [w][..0] == [];
  }

  lemma StepTraced(c: Context, r: Reg, op: Op)
    requires Registry.Closed(c) && RefsIn(op.schema, c.universe)
    ensures Traced(r, StepT(c, r, op), StepF(c, r, op).reg)
  {
    var res := ConvertF(c, r, op.schema);
    ConvertTraced(c, r, op.schema);
    if op.Add? {
      var w := Put(FreeName(res.reg.schemas.Keys, op.wanted), res.out);
      OneWrite(w);
      TracedThen(r, ConvertT(c, r, op.schema), res.reg, [w], StepF(c, r, op).reg);
    } else {
      TracedThen(r, ConvertT(c, r, op.schema), res.reg, [], res.reg);
    }
  }

  lemma StepOnce(c: Context, r: Reg, op: Op)
    requires Registry.Closed(c) && Unclashed(c, r) && RefsIn(op.schema, c.universe)
    ensures Once(StepT(c, r, op))
  {
    var res := ConvertF(c, r, op.schema);
    ConvertOnce(c, r, op.schema);
    ConvertTraced(c, r, op.schema);
    if op.Add? {
      var w := Put(FreeName(res.reg.schemas.Keys, op.wanted), res.out);
      OneWrite(w);
      TracedOnceThen(r, ConvertT(c, r, op.schema), res.reg, [w], StepF(c, r, op).reg);
    } else {
      OnceThen(ConvertT(c, r, op.schema), []);
    }
  }

  /** Replaying the stores of any run gives its components, and none touches a component stored before. */
  lemma {:induction false} RunTraced(c: Context, r: Reg, ops: seq<Op>)
    requires Registry.Closed(c) && forall i | 0 <= i < |ops| :: RefsIn(ops[i].schema, c.universe)
    ensures Traced(r, RunT(c, r, ops), RunF(c, r, ops).reg)
  {
    if ops != [] {
      var n := |ops| - 1;
      RunTraced(c, r, ops[..n]);
      StepTraced(c, RunF(c, r, ops[..n]).reg, ops[n]);
      TracedThen(r, RunT(c, r, ops[..n]), RunF(c, r, ops[..n]).reg, StepT(c, RunF(c, r, ops[..n]).reg, ops[n]),
                 RunF(c, r, ops).reg);
    }
  }

  lemma StepUnclashed(c: Context, r: Reg, op: Op)
    requires Registry.Closed(c) && RefsIn(op.schema, c.universe)
    requires !Clashing(c.universe) && Ordered(c, r) && (op.Add? ==> !AnonLike(op.wanted))
    ensures Ordered(c, StepF(c, r, op).reg)
  {
    ConvertLater(c, r, op.schema);
    var res := ConvertF(c, r, op.schema);
    if op.Add? {
      FreeNameNotAnonLike(res.reg.schemas.Keys, op.wanted);
      AddOrdered(c, res.reg, FreeName(res.reg.schemas.Keys, op.wanted), res.out);
    }
  }

  lemma AddOrdered(c: Context, r: Reg, name: string, o: Out)
    requires Ordered(c, r) && !AnonLike(name)
    ensures Ordered(c, Store(r, name, o))
  {
    forall j: nat ensures name != AnonymousName(j) { AnonymousIsAnonLike(j); }
  }

  lemma {:induction false} RunOrdered(c: Context, r: Reg, ops: seq<Op>)
    requires Registry.Closed(c) && !Clashing(c.universe) && Ordered(c, r) && OpsOk(c, ops)
    ensures Ordered(c, RunF(c, r, ops).reg)
  {
    if ops != [] {
      var n := |ops| - 1;
      RunOrdered(c, r, ops[..n]);
      StepUnclashed(c, RunF(c, r, ops[..n]).reg, ops[n]);
    }
  }

  /**
    No component is ever replaced, also within one conversion: the stores of a run, which give its state, touch
    no component stored before, and write a name a second time only to fill its placeholder. For this it takes
    no more than that there are not both an anonymous definition and a name `Anonymous<digits>`, or that no
    named definition can be given the name of an anonymous component.
  */
  lemma {:induction false} RunStoresOnce(c: Context, r: Reg, ops: seq<Op>)
    requires Registry.Closed(c) && forall i | 0 <= i < |ops| :: RefsIn(ops[i].schema, c.universe)
    requires AllNamed(c) || (OpsOk(c, ops) && NoAnonNames(c) && Settled(c, r)) || (OpsOk(c, ops) && !Clashing(c.universe) && Ordered(c, r))
    ensures Traced(r, RunT(c, r, ops), RunF(c, r, ops).reg)
    ensures Once(RunT(c, r, ops))
  {
    RunTraced(c, r, ops);
    if ops != [] {
      var n := |ops| - 1;
      var before := RunF(c, r, ops[..n]).reg;
      RunStoresOnce(c, r, ops[..n]);
      if OpsOk(c, ops) && NoAnonNames(c) && Settled(c, r) { RunClosed(c, r, ops[..n]); }
      if OpsOk(c, ops) && !Clashing(c.universe) && Ordered(c, r) { RunOrdered(c, r, ops[..n]); }
      StepOnce(c, before, ops[n]);
      StepTraced(c, before, ops[n]);
      TracedOnceThen(r, RunT(c, r, ops[..n]), before, StepT(c, before, ops[n]), RunF(c, r, ops).reg);
    }
  }
}
