/**
  What holds of every object in the output over whole runs, with source `oneOf` and tuples, on every definition
  graph: no type list and no type `null`; no `allOf` of plain objects, and typed enums.
*/
module CleanRuns {
  import opened Options
  import opened Sequences
  import opened JsonSchema
  import opened OpenApi
  import opened SchemaRewrite
  import opened SchemaMeaning
  import opened ObjectRewrite
  import opened OutputShape
  import opened Registry
  import opened RegistrySafety
  import opened RegistryRuns

  // ----- from a condition on source objects to one on output objects -----

  /** `q` holds of every object in the schema. */
  predicate Everywhere(q: seq<Entry> -> bool, s: Schema)
    decreases s
  {
    s.Obj? ==> q(s.entries) && GroupsEverywhere(q, s.entries)
  }

  /** The same for the subschemas of each keyword. */
  predicate GroupsEverywhere(q: seq<Entry> -> bool, es: seq<Entry>)
    decreases es
  {
    forall i | 0 <= i < |es| && es[i].Group? :: KidsEverywhere(q, es[i].kids)
  }

  predicate KidsEverywhere(q: seq<Entry> -> bool, kids: seq<Kid>)
    decreases kids
  {
    forall i | 0 <= i < |kids| :: Everywhere(q, kids[i].schema)
  }

  predicate DefinitionsEverywhere(q: seq<Entry> -> bool, c: Context)
  {
    forall d | d in c.definitions :: Everywhere(q, c.definitions[d])
  }

  ghost predicate AllDeep(p: Out -> bool, outss: seq<seq<Out>>)
  {
    forall i | 0 <= i < |outss| :: DeepVariants(p, Variants(outss[i]))
  }

  /** A source object that satisfies `q` gives an output object that satisfies `p`, if those below do. */
  ghost predicate Yields(q: seq<Entry> -> bool, p: Out -> bool)
  {
    && p(EMPTY) && p(ANY_JSON)
    && forall es, outss | Fits(es, outss) && q(es) && AllDeep(p, outss) :: Deep(p, Finish(Draft(es, outss)))
  }

  /** Stored components satisfy `p`, and what is converted is a reference. */
  ghost predicate RegDeep(p: Out -> bool, r: Reg)
  {
    && (forall n | n in r.schemas :: Deep(p, r.schemas[n]))
    && (forall d | d in r.converted :: r.converted[d].ORef?)
    && (forall m | m in r.byFingerprint :: r.byFingerprint[m].ORef?)
  }

  ghost predicate Setup(c: Context, q: seq<Entry> -> bool, p: Out -> bool)
  {
    Registry.Closed(c) && DefinitionsEverywhere(q, c) && Yields(q, p)
  }

  lemma {:induction false} ConvertDeep(c: Context, r: Reg, s: Schema, q: seq<Entry> -> bool, p: Out -> bool)
    requires Setup(c, q, p) && RefsIn(s, c.universe) && RegDeep(p, r) && Everywhere(q, s)
    ensures Deep(p, ConvertF(c, r, s).out) && RegDeep(p, ConvertF(c, r, s).reg)
    decreases Todo(c, r), Open(c, r), s, 2
  {
    match s
    case Ref(Some(d)) => ResolveDeep(c, r, d, q, p);
    case Obj(es) => EntriesDeep(c, r, es, q, p);
    case _ => NoKids(p, EMPTY);
  }

  lemma {:induction false} EntriesDeep(c: Context, r: Reg, es: seq<Entry>, q: seq<Entry> -> bool, p: Out -> bool)
    requires Setup(c, q, p) && EntriesRefsIn(es, c.universe) && RegDeep(p, r) && GroupsEverywhere(q, es)
    ensures AllDeep(p, EntriesF(c, r, es).out) && RegDeep(p, EntriesF(c, r, es).reg)
    decreases Todo(c, r), Open(c, r), es, 1
  {
    if es != [] {
      var n := |es| - 1;
      var before := EntriesF(c, r, es[..n]);
      EntriesDeep(c, r, es[..n], q, p);
      if es[n].Group? { LastGroupDeep(c, r, es, before.reg, q, p); }
    }
  }

  lemma {:induction false} LastGroupDeep(c: Context, r: Reg, es: seq<Entry>, reg: Reg, q: seq<Entry> -> bool, p: Out -> bool)
    requires Setup(c, q, p) && EntriesRefsIn(es, c.universe) && RegDeep(p, reg)
    requires es != [] && es[|es| - 1].Group? && GroupsEverywhere(q, es)
    requires r.converted.Keys <= reg.converted.Keys && reg.inlining == r.inlining
    ensures var res := KidsF(c, reg, es[|es| - 1].kids); DeepVariants(p, Variants(res.out)) && RegDeep(p, res.reg)
    decreases Todo(c, r), Open(c, r), es, 0
  {
    TodoShrinks(c, r, reg);
    KidsDeep(c, reg, es[|es| - 1].kids, q, p);
  }

  lemma {:induction false} KidsDeep(c: Context, r: Reg, kids: seq<Kid>, q: seq<Entry> -> bool, p: Out -> bool)
    requires Setup(c, q, p) && KidsRefsIn(kids, c.universe) && RegDeep(p, r) && KidsEverywhere(q, kids)
    ensures DeepVariants(p, Variants(KidsF(c, r, kids).out)) && RegDeep(p, KidsF(c, r, kids).reg)
    decreases Todo(c, r), Open(c, r), kids, 0
  {
    if kids != [] {
      var n := |kids| - 1;
      var before := KidsF(c, r, kids[..n]);
      KidsDeep(c, r, kids[..n], q, p);
      TodoShrinks(c, r, before.reg);
      ConvertDeep(c, before.reg, kids[n].schema, q, p);
      OneMoreDeep(p, before.out, ConvertF(c, before.reg, kids[n].schema).out);
    }
  }

  lemma OneMoreDeep(p: Out -> bool, outs: seq<Out>, o: Out)
    requires DeepVariants(p, Variants(outs)) && Deep(p, o)
    ensures DeepVariants(p, Variants(outs + [o]))
  {
    forall i | 0 <= i < |outs| ensures Deep(p, (outs + [o])[i]) { assert Deep(p, Variants(outs).list[i]); }
  }

  lemma {:induction false} ResolveDeep(c: Context, r: Reg, d: string, q: seq<Entry> -> bool, p: Out -> bool)
    requires Setup(c, q, p) && d in c.universe && RegDeep(p, r)
    ensures Deep(p, ResolveF(c, r, d).out) && RegDeep(p, ResolveF(c, r, d).reg)
    decreases Todo(c, r), Open(c, r), Ref(Some(d)), 1
  {
    var plan := PlanFor(c, r, d);
    PlanDeep(c, r, d, p);
    if !plan.Known? {
      PlanDescends(c, r, d);
      BodyDeep(c, r, d, plan.start, q, p);
    }
    ResolveDeepFrom(c, r, d, plan, p);
  }

  lemma ResolveDeepFrom(c: Context, r: Reg, d: string, plan: Plan, p: Out -> bool)
    requires Registry.Closed(c) && d in c.universe && plan == PlanFor(c, r, d)
    requires plan.Known? ==> Deep(p, plan.out) && RegDeep(p, plan.reg)
    requires !plan.Known? ==> Deep(p, Converted(c, d, plan.start).out) && RegDeep(p, Converted(c, d, plan.start).reg)
    ensures Deep(p, ResolveF(c, r, d).out) && RegDeep(p, ResolveF(c, r, d).reg)
  {
    match plan
    case Known(_, _) =>
    case Component(name, start) =>
      var done := Converted(c, d, start);
      StoreDeep(done.reg, name, done.out, p);
    case Inline(start) =>
  }

  lemma StoreDeep(r: Reg, name: string, o: Out, p: Out -> bool)
    requires RegDeep(p, r) && Deep(p, o)
    ensures RegDeep(p, Store(r, name, o))
  {
  }

  lemma PlanDeep(c: Context, r: Reg, d: string, p: Out -> bool)
    requires RegDeep(p, r) && p(EMPTY) && p(ANY_JSON)
    ensures var plan := PlanFor(c, r, d);
      if plan.Known? then Deep(p, plan.out) && RegDeep(p, plan.reg) else RegDeep(p, plan.start)
  {
    NoKids(p, EMPTY);
    NoKids(p, ANY_JSON);
  }

  lemma {:induction false} BodyDeep(c: Context, r: Reg, d: string, start: Reg, q: seq<Entry> -> bool, p: Out -> bool)
    requires Setup(c, q, p) && d in c.universe && RegDeep(p, start) && Descends(c, r, start)
    ensures Deep(p, Converted(c, d, start).out) && RegDeep(p, Converted(c, d, start).reg)
    decreases Todo(c, r), Open(c, r), Ref(Some(d)), 0
  {
    BodyRefsIn(c, d);
    ConvertDeep(c, start, Body(c, d), q, p);
  }

  /** Over every run: results and components satisfy `p` at every depth. */
  lemma {:induction false} RunDeep(c: Context, r: Reg, ops: seq<Op>, q: seq<Entry> -> bool, p: Out -> bool)
    requires Setup(c, q, p) && RegDeep(p, r)
    requires forall i | 0 <= i < |ops| :: RefsIn(ops[i].schema, c.universe) && Everywhere(q, ops[i].schema)
    ensures var res := RunF(c, r, ops);
      RegDeep(p, res.reg) && forall i | 0 <= i < |ops| :: Deep(p, res.out[i])
  {
    if ops != [] {
      var n := |ops| - 1;
      var before := RunF(c, r, ops[..n]);
      RunDeep(c, r, ops[..n], q, p);
      ConvertDeep(c, before.reg, ops[n].schema, q, p);
    }
  }

  // ----- no type list, no type `null` -----

  predicate HasUnion(es: seq<Entry>)
  {
    exists i | 0 <= i < |es| :: es[i].Group? && (es[i].kw.AnyOf? || es[i].kw.OneOf?)
  }

  /** The object does not have both `type: "null"` and a union. */
  predicate NullAlone(es: seq<Entry>)
  {
    !(TypeOf(es) == One(TNull) && HasUnion(es))
  }

  lemma NodeClean(es: seq<Entry>, outss: seq<seq<Out>>)
    requires Fits(es, outss) && AllDeep(CleanNode, outss) && NullAlone(es)
    ensures Clean(Finish(Draft(es, outss)))
  {
    DraftDeep(CleanNode, es, outss);
    DraftShape(es, outss);
    FinishClean(Draft(es, outss));
    if !HasUnion(es) { NoUnionKey(es, outss); }
  }

  lemma NoUnionKey(es: seq<Entry>, outss: seq<seq<Out>>)
    requires Fits(es, outss) && !HasUnion(es)
    ensures Draft(es, outss).anyOf.NoVariants? && Draft(es, outss).oneOf.NoVariants?
  {
    DraftFree(es, outss, KAnyOf);
    DraftFree(es, outss, KOneOf);
  }

  /**
    When no object has both `type: "null"` and a union, every result and every component of every run is
    expressible in OpenAPI 3.0: no type list and no type `null` at any depth.
  */
  lemma RunClean(c: Context, r: Reg, ops: seq<Op>)
    requires Registry.Closed(c) && DefinitionsEverywhere(NullAlone, c) && RegDeep(CleanNode, r)
    requires forall i | 0 <= i < |ops| :: RefsIn(ops[i].schema, c.universe) && Everywhere(NullAlone, ops[i].schema)
    ensures var res := RunF(c, r, ops);
      && (forall i | 0 <= i < |ops| :: Clean(res.out[i]))
      && (forall n | n in res.reg.schemas :: Clean(res.reg.schemas[n]))
  {
    forall es, outss | Fits(es, outss) && NullAlone(es) && AllDeep(CleanNode, outss)
      ensures Deep(CleanNode, Finish(Draft(es, outss)))
    {
      NodeClean(es, outss);
    }
    RunDeep(c, r, ops, NullAlone, CleanNode);
  }

  // ----- no `allOf` of plain objects; typed enums -----

  /** The object's type list is split: not when one type is left beside null. */
  predicate ListsTypes(es: seq<Entry>)
  {
    TypeOf(es).Many? && |Filter(TypeOf(es).ts, NotNullType)| != 1
  }

  /** No union and no list of types stands beside the object's `allOf`. */
  predicate AllOfAlone(es: seq<Entry>)
  {
    HasUnion(es) || ListsTypes(es) ==> forall i | 0 <= i < |es| :: !(es[i].Group? && es[i].kw.AllOf?)
  }

  /** No union and no list of types stands beside the object's enum. */
  predicate EnumAlone(es: seq<Entry>)
  {
    HasUnion(es) || ListsTypes(es) ==> forall i | 0 <= i < |es| :: !(es[i].Leaf? && (es[i].leaf.Enum? || es[i].leaf.Const?))
  }

  /** Without a union and a list of types the object is not returned early, and no variants are made of it. */
  lemma Undisturbed(es: seq<Entry>, outss: seq<seq<Out>>)
    requires Fits(es, outss)
    ensures !HasUnion(es) ==> !EarlyReturn(Draft(es, outss))
    ensures !ListsTypes(es) ==> SplitInto(Draft(es, outss)) == []
  {
    DraftShape(es, outss);
    if !HasUnion(es) { NoUnionKey(es, outss); }
  }

  lemma NodeMerged(es: seq<Entry>, outss: seq<seq<Out>>)
    requires Fits(es, outss) && AllDeep(MergedNode, outss) && AllOfAlone(es)
    ensures Deep(MergedNode, Finish(Draft(es, outss)))
  {
    DraftDeep(MergedNode, es, outss);
    AllOfReady(es, outss);
    FinishMerged(Draft(es, outss));
  }

  lemma AllOfReady(es: seq<Entry>, outss: seq<seq<Out>>)
    requires Fits(es, outss) && AllOfAlone(es)
    ensures EarlyReturn(Draft(es, outss)) || SplitInto(Draft(es, outss)) != [] ==> Draft(es, outss).allOf.NoVariants?
  {
    Undisturbed(es, outss);
    if HasUnion(es) || ListsTypes(es) { DraftFree(es, outss, KAllOf); }
  }

  lemma NodeTyped(es: seq<Entry>, outss: seq<seq<Out>>)
    requires Fits(es, outss) && AllDeep(TypedNode, outss) && EnumAlone(es)
    ensures Deep(TypedNode, Finish(Draft(es, outss)))
  {
    DraftDeep(TypedNode, es, outss);
    EnumReady(es, outss);
    FinishTyped(Draft(es, outss));
  }

  lemma EnumReady(es: seq<Entry>, outss: seq<seq<Out>>)
    requires Fits(es, outss) && EnumAlone(es)
    ensures EarlyReturn(Draft(es, outss)) || SplitInto(Draft(es, outss)) != [] ==> Draft(es, outss).enum.None?
  {
    Undisturbed(es, outss);
    if HasUnion(es) || ListsTypes(es) { DraftFree(es, outss, KEnum); }
  }

  /**
    When no union and no list of types stands beside an `allOf`, then in every result and every component of every
    run, at any depth, there is no `allOf` of two or more objects with properties: they have become one object.
  */
  lemma RunMerged(c: Context, r: Reg, ops: seq<Op>)
    requires Registry.Closed(c) && DefinitionsEverywhere(AllOfAlone, c) && RegDeep(MergedNode, r)
    requires forall i | 0 <= i < |ops| :: RefsIn(ops[i].schema, c.universe) && Everywhere(AllOfAlone, ops[i].schema)
    ensures var res := RunF(c, r, ops);
      && (forall i | 0 <= i < |ops| :: Deep(MergedNode, res.out[i]))
      && (forall n | n in res.reg.schemas :: Deep(MergedNode, res.reg.schemas[n]))
  {
    forall es, outss | Fits(es, outss) && AllOfAlone(es) && AllDeep(MergedNode, outss)
      ensures Deep(MergedNode, Finish(Draft(es, outss)))
    {
      NodeMerged(es, outss);
    }
    RunDeep(c, r, ops, AllOfAlone, MergedNode);
  }

  /** When none stands beside an enum, every enum there has no null, and the scalar type that all its values have. */
  lemma RunTyped(c: Context, r: Reg, ops: seq<Op>)
    requires Registry.Closed(c) && DefinitionsEverywhere(EnumAlone, c) && RegDeep(TypedNode, r)
    requires forall i | 0 <= i < |ops| :: RefsIn(ops[i].schema, c.universe) && Everywhere(EnumAlone, ops[i].schema)
    ensures var res := RunF(c, r, ops);
      && (forall i | 0 <= i < |ops| :: Deep(TypedNode, res.out[i]))
      && (forall n | n in res.reg.schemas :: Deep(TypedNode, res.reg.schemas[n]))
  {
    forall es, outss | Fits(es, outss) && EnumAlone(es) && AllDeep(TypedNode, outss)
      ensures Deep(TypedNode, Finish(Draft(es, outss)))
    {
      NodeTyped(es, outss);
    }
    RunDeep(c, r, ops, EnumAlone, TypedNode);
  }
}
