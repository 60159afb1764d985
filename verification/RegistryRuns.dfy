/** The registry over whole runs, on every definition graph: closure, names and sharing. */
module RegistryRuns {
  import opened Options
  import opened JsonSchema
  import opened OpenApi
  import opened ComponentNames
  import opened Fingerprint
  import opened FingerprintEquality
  import opened Registry
  import opened RegistryInvariants
  import opened RegistrySafety

  // ----- every graph has a finite set of names -----

  function Refs(s: Schema): set<string>
    decreases s
  {
    match s
    case Ref(Some(d)) => {d}
    case Obj(es) => EntriesRefs(es)
    case _ => {}
  }

  function EntriesRefs(es: seq<Entry>): set<string>
    decreases es
  {
    if es == [] then {}
    else EntriesRefs(es[..|es| - 1]) + (if es[|es| - 1].Group? then KidsRefs(es[|es| - 1].kids) else {})
  }

  function KidsRefs(kids: seq<Kid>): set<string>
    decreases kids
  {
    if kids == [] then {} else KidsRefs(kids[..|kids| - 1]) + Refs(kids[|kids| - 1].schema)
  }

  function Universe(definitions: map<string, Schema>, roots: seq<Kid>): set<string>
  {
    KidsRefs(roots) + (set d, n | d in definitions && n in Refs(definitions[d]) :: n)
  }

  lemma {:induction false} RefsInMore(s: Schema, names: set<string>)
    requires Refs(s) <= names
    ensures RefsIn(s, names)
    decreases s
  {
    if s.Obj? { EntriesRefsInMore(s.entries, names); }
  }

  lemma {:induction false} EntriesRefsInMore(es: seq<Entry>, names: set<string>)
    requires EntriesRefs(es) <= names
    ensures EntriesRefsIn(es, names)
    decreases es
  {
    if es != [] {
      var n := |es| - 1;
      EntriesRefsInMore(es[..n], names);
      if es[n].Group? { KidsRefsInMore(es[n].kids, names); }
      forall i | 0 <= i < |es| && es[i].Group? ensures KidsRefsIn(es[i].kids, names) {
        if i < n { assert es[..n][i] == es[i]; }
      }
    }
  }

  lemma {:induction false} KidsRefsInMore(kids: seq<Kid>, names: set<string>)
    requires KidsRefs(kids) <= names
    ensures KidsRefsIn(kids, names)
    decreases kids
  {
    if kids != [] {
      var n := |kids| - 1;
      KidsRefsInMore(kids[..n], names);
      RefsInMore(kids[n].schema, names);
      forall i | 0 <= i < |kids| ensures RefsIn(kids[i].schema, names) {
        if i < n { assert kids[..n][i] == kids[i]; }
      }
    }
  }

  /**
    The set of names that the conversion's measure counts exists for every definition graph and every
    list of roots, cyclic or dangling or not: conversion always terminates.
  */
  lemma EveryGraphConverts(definitions: map<string, Schema>, owned: set<string>, roots: seq<Kid>)
    ensures var c := Context(definitions, owned, Universe(definitions, roots));
      Registry.Closed(c) && KidsRefsIn(roots, c.universe)
  {
    var universe := Universe(definitions, roots);
    forall d | d in definitions ensures RefsIn(definitions[d], universe) {
      RefsInMore(definitions[d], universe);
    }
    KidsRefsInMore(roots, universe);
  }

  // ----- whole runs -----

  /** `convert(schema)`, or `add(wanted, convert(schema))`. */
  datatype Op = Convert(schema: Schema) | Add(wanted: string, schema: Schema)

  function StepF(c: Context, r: Reg, op: Op): Result<Out>
    requires Registry.Closed(c) && RefsIn(op.schema, c.universe)
  {
    var res := ConvertF(c, r, op.schema);
    if op.Convert? then res
    else
      var name := FreeName(res.reg.schemas.Keys, op.wanted);
      Result(ORef(name), Store(res.reg, name, res.out))
  }

  ghost predicate OpsOk(c: Context, ops: seq<Op>)
  {
    forall i | 0 <= i < |ops| :: RefsIn(ops[i].schema, c.universe) && (ops[i].Add? ==> !AnonLike(ops[i].wanted))
  }

  function RunF(c: Context, r: Reg, ops: seq<Op>): (res: Result<seq<Out>>)
    requires Registry.Closed(c) && forall i | 0 <= i < |ops| :: RefsIn(ops[i].schema, c.universe)
    ensures |res.out| == |ops|
  {
    if ops == [] then Result([], r)
    else
      var n := |ops| - 1;
      var before := RunF(c, r, ops[..n]);
      var here := StepF(c, before.reg, ops[n]);
      Result(before.out + [here.out], here.reg)
  }

  /** Between outermost calls: the invariant, and no component is still being converted. */
  ghost predicate Settled(c: Context, r: Reg)
  {
    Inv(c, r) && Targets(r) <= r.schemas.Keys && r.inlining == {}
  }

  /** The registry as constructed over the components Swagger already has. */
  function Initial(swagger: map<string, Out>): Reg
  {
    Reg(map[], {}, map[], 0, swagger)
  }

  lemma InitialSettled(c: Context, swagger: map<string, Out>)
    requires c.swaggerOwned == swagger.Keys
    requires forall n | n in swagger :: RefsTo(swagger[n], swagger.Keys) && !AnonLike(n)
    ensures Settled(c, Initial(swagger))
  {
    assert Reserved(Initial(swagger)) == swagger.Keys;
  }

  lemma AddKeepsStored(r: Reg, name: string, o: Out)
    requires StoredOk(r) && RefsTo(o, Reserved(r)) && name !in r.schemas
    ensures StoredOk(Store(r, name, o)) && Targets(Store(r, name, o)) == Targets(r)
  {
    var last := Store(r, name, o);
    assert Targets(last) == Targets(r);
    SchemasRefToMore(r, Reserved(last));
    RefsToMore(o, Reserved(r), Reserved(last));
  }

  lemma AddSettled(c: Context, r: Reg, name: string, o: Out)
    requires Settled(c, r) && RefsTo(o, Reserved(r)) && name !in r.schemas && !AnonLike(name)
    ensures Settled(c, Store(r, name, o)) && Grows(r.schemas, Store(r, name, o).schemas)
  {
    AddKeepsStored(r, name, o);
    ConvertedStays(c, r, Store(r, name, o));
    AddKeepsNames(c, r, name, o);
  }

  lemma AddKeepsNames(c: Context, r: Reg, name: string, o: Out)
    requires NamesOk(c, r) && MarksOk(c, r) && AnonymousApart(r) && !AnonLike(name)
    ensures NamesOk(c, Store(r, name, o)) && MarksOk(c, Store(r, name, o)) && AnonymousApart(Store(r, name, o))
  {
  }

  lemma StepSettled(c: Context, r: Reg, op: Op)
    requires Registry.Closed(c) && NoAnonNames(c) && Settled(c, r) && RefsIn(op.schema, c.universe)
    requires op.Add? ==> !AnonLike(op.wanted)
    ensures var res := StepF(c, r, op);
      Settled(c, res.reg) && Grows(r.schemas, res.reg.schemas) && RefsTo(res.out, res.reg.schemas.Keys)
  {
    ConvertKeeps(c, r, op.schema);
    var res := ConvertF(c, r, op.schema);
    assert Reserved(res.reg) == res.reg.schemas.Keys;
    if op.Add? {
      FreeNameNotAnonLike(res.reg.schemas.Keys, op.wanted);
      AddSettled(c, res.reg, FreeName(res.reg.schemas.Keys, op.wanted), res.out);
    }
  }

  /**
    Over any run of conversions and additions: every reference, in every result and in every stored
    component, names a stored component; and no stored component is ever replaced.
  */
  lemma {:induction false} RunClosed(c: Context, r: Reg, ops: seq<Op>)
    requires Registry.Closed(c) && NoAnonNames(c) && Settled(c, r) && OpsOk(c, ops)
    ensures var res := RunF(c, r, ops);
      && Settled(c, res.reg)
      && Grows(r.schemas, res.reg.schemas)
      && (forall i | 0 <= i < |ops| :: RefsTo(res.out[i], res.reg.schemas.Keys))
      && (forall n | n in res.reg.schemas :: RefsTo(res.reg.schemas[n], res.reg.schemas.Keys))
  {
    if ops == [] {
      assert Reserved(r) == r.schemas.Keys;
    } else {
      var n := |ops| - 1;
      RunClosed(c, r, ops[..n]);
      var before := RunF(c, r, ops[..n]);
      StepSettled(c, before.reg, ops[n]);
      var here := StepF(c, before.reg, ops[n]);
      forall i | 0 <= i < n ensures RefsTo(before.out[i], here.reg.schemas.Keys) {
        RefsToMore(before.out[i], before.reg.schemas.Keys, here.reg.schemas.Keys);
      }
      assert Reserved(here.reg) == here.reg.schemas.Keys;
    }
  }

  /** Two definitions share a component only if the short name agrees, and the body but for what is called `description`. */
  lemma SharingIsEarned(c: Context, r: Reg, d: string, e: string)
    requires Inv(c, r) && d in r.converted && e in r.converted && d != e
    requires r.converted[d] == r.converted[e] && r.converted[d].name !in c.swaggerOwned
    ensures ComponentNameFor(d).Some? && ComponentNameFor(d) == ComponentNameFor(e)
    ensures Same(true, Body(c, d), Body(c, e))
  {
    SchemaStripped(Body(c, d), Body(c, e));
    assert Justified(c, r, d, r.converted[d].name) && Justified(c, r, e, r.converted[e].name);
    forall x, y | x in {d, e} && y in {d, e} && ComponentNameFor(x).None? && ComponentNameFor(y).Some? ensures false {
      var k: nat :| 0 < k <= r.anon && r.converted[x].name == AnonymousName(k);
      AnonymousIsAnonLike(k);
    }
    if ComponentNameFor(d).Some? && ComponentNameFor(e).Some? {
      assert Mark(c, d) == Mark(c, e);
    }
  }

  /** Twins do share: the second of two such definitions is given the first one's component. */
  lemma TwinsShare(c: Context, r: Reg, d: string, e: string)
    requires Inv(c, r) && d in r.converted && e !in r.converted && !IsAnyJson(e)
    requires ComponentNameFor(d).Some? && ComponentNameFor(d) == ComponentNameFor(e)
    requires ComponentNameFor(d).value !in c.swaggerOwned && Same(true, Body(c, d), Body(c, e))
    requires Registry.Closed(c) && e in c.universe
    ensures ResolveF(c, r, e).out == r.converted[d]
  {
    SchemaStripped(Body(c, d), Body(c, e));
    assert Justified(c, r, d, r.converted[d].name);
    assert Mark(c, d) == Mark(c, e);
  }

  lemma OwnedName(c: Context, r: Reg, d: string)
    requires Inv(c, r) && NoAnonNames(c) && d in r.converted && r.converted[d].name in c.swaggerOwned
    ensures ComponentNameFor(d) == Some(r.converted[d].name)
  {
    assert Justified(c, r, d, r.converted[d].name);
    if ComponentNameFor(d).None? {
      var k: nat :| 0 < k <= r.anon && r.converted[d].name == AnonymousName(k);
      AnonymousIsAnonLike(k);
    }
  }

  /** Definitions that are given one component: one short name and, unless Swagger owns it, equal bodies but for descriptions. */
  predicate Twins(c: Context, d: string, e: string)
  {
    && ComponentNameFor(d).Some? && ComponentNameFor(d) == ComponentNameFor(e)
    && (ComponentNameFor(d).value in c.swaggerOwned || Same(true, Body(c, d), Body(c, e)))
  }

  /** Two converted definitions have one component exactly when they are twins. */
  lemma SharedExactlyWhen(c: Context, r: Reg, d: string, e: string)
    requires Inv(c, r) && NoAnonNames(c) && d in r.converted && e in r.converted
    ensures r.converted[d] == r.converted[e] <==> d == e || Twins(c, d, e)
  {
    SchemaStripped(Body(c, d), Body(c, e));
    assert Justified(c, r, d, r.converted[d].name) && Justified(c, r, e, r.converted[e].name);
    if Twins(c, d, e) && ComponentNameFor(d).value !in c.swaggerOwned {
      assert Mark(c, d) == Mark(c, e);
    }
    if r.converted[d] == r.converted[e] && d != e {
      if r.converted[d].name in c.swaggerOwned {
        OwnedName(c, r, d);
        OwnedName(c, r, e);
      } else {
        SharingIsEarned(c, r, d, e);
      }
    }
  }

  /**
    After any run, two kinds of references store nothing: one to Prisma's JSON unions is answered by a schema with
    a description and no constraint, one whose short name Swagger owns by that component.
  */
  lemma RunAnswers(c: Context, r: Reg, ops: seq<Op>, d: string)
    requires Registry.Closed(c) && NoAnonNames(c) && Settled(c, r) && OpsOk(c, ops) && d in c.universe
    ensures var before := RunF(c, r, ops).reg;
      var res := ConvertF(c, before, Ref(Some(d)));
      && (IsAnyJson(d) ==> res.reg == before && res.out.ONode? && res.out == EMPTY.(notes := res.out.notes) && res.out.notes.Keys == {"description"})
      && (!IsAnyJson(d) && ComponentNameFor(d).Some? && ComponentNameFor(d).value in c.swaggerOwned ==>
           res.out == ORef(ComponentNameFor(d).value) && res.reg.schemas == before.schemas)
  {
    var before := RunF(c, r, ops).reg;
    RunClosed(c, r, ops);
    if d in before.converted { assert Justified(c, before, d, before.converted[d].name); }
  }

  // ----- sharing, over whole runs -----

  /**
    After any run: two converted definitions have one component exactly when they have one short name and, unless
    Swagger owns it, bodies equal but for what is called `description`; bodies that differ in annotations of that
    name alone are such.
  */
  lemma RunShares(c: Context, swaggerSchemas: map<string, Out>, ops: seq<Op>, d: string, e: string)
    requires Registry.Closed(c) && NoAnonNames(c) && Settled(c, Initial(swaggerSchemas)) && OpsOk(c, ops)
    requires var r := RunF(c, Initial(swaggerSchemas), ops).reg; d in r.converted && e in r.converted && d != e
    ensures var r := RunF(c, Initial(swaggerSchemas), ops).reg;
      r.converted[d] == r.converted[e] <==>
        && ComponentNameFor(d).Some? && ComponentNameFor(d) == ComponentNameFor(e)
        && (ComponentNameFor(d).value in c.swaggerOwned || Same(true, Body(c, d), Body(c, e)))
    ensures Same(false, Body(c, d), Body(c, e)) ==> Same(true, Body(c, d), Body(c, e))
  {
    RunClosed(c, Initial(swaggerSchemas), ops);
    SharedExactlyWhen(c, RunF(c, Initial(swaggerSchemas), ops).reg, d, e);
    if Same(false, Body(c, d), Body(c, e)) { AnnotationsOnly(Body(c, d), Body(c, e)); }
  }
}
