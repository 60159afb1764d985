/** The main results about meaning: over whole runs of conversions and additions, on every definition graph. */
module RunMeaning {
  import opened Options
  import opened Sequences
  import opened JsonSchema
  import opened OpenApi
  import opened SchemaRewrite
  import opened SchemaMeaning
  import opened ComponentNames
  import opened Fingerprint
  import opened FingerprintEquality
  import opened OutputMono
  import opened NullLooks
  import opened Registry
  import opened RegistryInvariants
  import opened RegistrySafety
  import opened RegistryMeaning
  import opened BoundedMeaning
  import opened RegistryRuns

  // ----- components that belong to no definition -----

  /** The component `n` was stored by the `i`-th operation, under a name of its own. */
  predicate Adds(ops: seq<Op>, outs: seq<Out>, i: nat, n: string)
  {
    i < |ops| == |outs| && ops[i].Add? && outs[i] == ORef(n)
  }

  /** Nothing a definition is or will be converted to. */
  ghost predicate Apart(c: Context, r: Reg, n: string)
  {
    && n in r.schemas && n !in c.swaggerOwned && !AnonLike(n)
    && forall p | p in r.byFingerprint :: r.byFingerprint[p] != ORef(n)
  }

  lemma ApartUnconverted(c: Context, r: Reg, n: string, d: string)
    requires Inv(c, r) && NoAnonNames(c) && Apart(c, r, n) && d in r.converted
    ensures r.converted[d] != ORef(n)
  {
    assert Justified(c, r, d, r.converted[d].name);
    if ComponentNameFor(d).None? {
      var k: nat :| 0 < k <= r.anon && r.converted[d].name == AnonymousName(k);
      AnonymousIsAnonLike(k);
    }
  }

  ghost predicate AllApart(c: Context, r: Reg, ops: seq<Op>, outs: seq<Out>)
    requires |ops| == |outs|
  {
    && (forall i | 0 <= i < |ops| && ops[i].Add? :: outs[i].ORef? && Apart(c, r, outs[i].name))
    && (forall i, j | 0 <= i < j < |ops| && ops[i].Add? && ops[j].Add? :: outs[i] != outs[j])
  }

  lemma ConvertApart(c: Context, r: Reg, s: Schema, ops: seq<Op>, outs: seq<Out>)
    requires Registry.Closed(c) && NoAnonNames(c) && Inv(c, r) && RefsIn(s, c.universe)
    requires |ops| == |outs| && AllApart(c, r, ops, outs)
    ensures AllApart(c, ConvertF(c, r, s).reg, ops, outs)
  {
    ConvertKeeps(c, r, s);
    var r' := ConvertF(c, r, s).reg;
    assert Extends(r, r');
    forall i | 0 <= i < |ops| && ops[i].Add? ensures Apart(c, r', outs[i].name) {
      assert Apart(c, r, outs[i].name);
    }
  }

  lemma AddApart(c: Context, r: Reg, name: string, o: Out, ops: seq<Op>, outs: seq<Out>, op: Op)
    requires Inv(c, r) && name !in r.schemas && !AnonLike(name) && op.Add?
    requires |ops| == |outs| && AllApart(c, r, ops, outs)
    ensures AllApart(c, Store(r, name, o), ops + [op], outs + [ORef(name)])
  {
    var last := Store(r, name, o);
    forall i | 0 <= i < |ops| && ops[i].Add? ensures Apart(c, last, outs[i].name) && outs[i] != ORef(name) {
      assert Apart(c, r, outs[i].name);
    }
    assert Apart(c, last, name);
  }

  lemma ConvertAddsNothing(c: Context, r: Reg, ops: seq<Op>, outs: seq<Out>, op: Op, o: Out)
    requires |ops| == |outs| && AllApart(c, r, ops, outs) && op.Convert?
    ensures AllApart(c, r, ops + [op], outs + [o])
  {
  }

  /** The names given by `add` are different from each other and from the components of all definitions. */
  lemma {:induction false} RunApart(c: Context, r: Reg, ops: seq<Op>)
    requires Registry.Closed(c) && NoAnonNames(c) && Settled(c, r) && OpsOk(c, ops)
    ensures AllApart(c, RunF(c, r, ops).reg, ops, RunF(c, r, ops).out)
  {
    if ops != [] {
      var n := |ops| - 1;
      var before := RunF(c, r, ops[..n]);
      var res := ConvertF(c, before.reg, ops[n].schema);
      RunApart(c, r, ops[..n]);
      RunClosed(c, r, ops[..n]);
      ConvertKeeps(c, before.reg, ops[n].schema);
      ConvertApart(c, before.reg, ops[n].schema, ops[..n], before.out);
      LastSplit(ops);
      if ops[n].Add? {
        FreeNameNotAnonLike(res.reg.schemas.Keys, ops[n].wanted);
        AddApart(c, res.reg, FreeName(res.reg.schemas.Keys, ops[n].wanted), res.out, ops[..n], before.out, ops[n]);
      } else {
        ConvertAddsNothing(c, res.reg, ops[..n], before.out, ops[n], res.out);
      }
    }
  }

  // ----- meaning, over whole runs -----

  /**
    A component means what the definitions converted to it mean, or what was added under its name;
    Swagger's own are given.
  */
  ghost function ComponentMeaning(c: Context, r: Reg, ops: seq<Op>, outs: seq<Out>, m: Meaning,
                                  swagger: (string, Json) -> bool): Meaning
  {
    Meaning((n, v) => if n in c.swaggerOwned then swagger(n, v)
                      else (exists d | d in r.converted && r.converted[d] == ORef(n) :: m.refs(d, v))
                           || (exists i: nat :: Adds(ops, outs, i, n) && Valid(ops[i].schema, v, m)),
            m.ext)
  }

  /** Swagger describes the definitions in use that it owns. */
  ghost predicate SwaggerAgrees(side: Side, c: Context, m: Meaning, swagger: (string, Json) -> bool)
  {
    forall d, v | d in c.universe && ComponentNameFor(d).Some? && ComponentNameFor(d).value in c.swaggerOwned ::
      && (m.refs(d, v) ==> swagger(ComponentNameFor(d).value, v))
      && (side.exact && swagger(ComponentNameFor(d).value, v) ==> m.refs(d, v))
  }

  /** The definitions in use that Swagger owns mean the same where they have one short name. */
  ghost predicate OwnedAgree(c: Context, m: Meaning)
  {
    forall d, e, v | d in c.universe && e in c.universe && ComponentNameFor(d).Some?
                     && ComponentNameFor(d) == ComponentNameFor(e) && ComponentNameFor(d).value in c.swaggerOwned ::
      m.refs(d, v) ==> m.refs(e, v)
  }

  /** Swagger can describe them exactly, by some reading of its components, if and only if they do. */
  lemma SwaggerAgreesExactlyWhen(c: Context, m: Meaning)
    ensures (exists swagger: (string, Json) -> bool :: SwaggerAgrees(BOTH, c, m, swagger)) <==> OwnedAgree(c, m)
  {
    if OwnedAgree(c, m) {
      var reading := OwnedReading(c, m);
      assert SwaggerAgrees(BOTH, c, m, reading);
    }
  }

  lemma OwnedReading(c: Context, m: Meaning) returns (swagger: (string, Json) -> bool)
    requires OwnedAgree(c, m)
    ensures SwaggerAgrees(BOTH, c, m, swagger)
  {
    ghost var named := Meaning((n, v) => exists d | d in c.universe && ComponentNameFor(d) == Some(n) :: m.refs(d, v), m.ext);
    swagger := named.refs;
    forall d, v | d in c.universe && ComponentNameFor(d).Some? && ComponentNameFor(d).value in c.swaggerOwned
      ensures m.refs(d, v) <==> swagger(ComponentNameFor(d).value, v)
    {
      var n := ComponentNameFor(d).value;
      if swagger(n, v) {
        var e :| e in c.universe && ComponentNameFor(e) == Some(n) && m.refs(e, v);
      }
    }
  }

  /** Twins among the definitions in use mean the same. */
  ghost predicate TwinsAgree(c: Context, m: Meaning)
  {
    forall d, e | d in c.universe && e in c.universe && Twins(c, d, e) && ComponentNameFor(d).value !in c.swaggerOwned ::
      SameMeaning(Body(c, d), Body(c, e), m)
  }

  /** Nothing but annotations tells twins apart. */
  predicate TwinsAssertTheSame(c: Context)
  {
    forall d, e | d in c.universe && e in c.universe && Twins(c, d, e) :: SameAssertions(Body(c, d), Body(c, e))
  }

  /** What can be checked before a run: twins assert the same, or `description` is never more than an annotation. */
  predicate TwinsClear(c: Context)
  {
    TwinsAssertTheSame(c) || forall d | d in c.universe :: SafeSchema(Body(c, d))
  }

  lemma TwinsAgreeWhen(c: Context, m: Meaning)
    requires TwinsClear(c)
    ensures TwinsAgree(c, m)
  {
    forall d, e | d in c.universe && e in c.universe && Twins(c, d, e) && ComponentNameFor(d).value !in c.swaggerOwned
      ensures SameMeaning(Body(c, d), Body(c, e), m)
    {
      forall v ensures Valid(Body(c, d), v, m) <==> Valid(Body(c, e), v, m) {
        SchemaStripped(Body(c, d), Body(c, e));
        SameFingerprintSameMeaning(Body(c, d), Body(c, e), v, m);
      }
    }
  }

  /** The converted definitions that are twins mean the same. */
  ghost predicate ConvertedTwinsAgree(c: Context, r: Reg, m: Meaning)
  {
    forall d, e, v | d in r.converted && e in r.converted && Twins(c, d, e) :: m.refs(d, v) ==> m.refs(e, v)
  }

  /**
    Components can mean exactly what the definitions converted to them mean, in one reading or another, if
    and only if the converted twins mean the same.
  */
  lemma SharingKeepsMeaningExactlyWhen(c: Context, r: Reg, m: Meaning)
    requires Inv(c, r) && NoAnonNames(c)
    ensures (exists cm :: Linked(BOTH, r, m, cm)) <==> ConvertedTwinsAgree(c, r, m)
  {
    if ConvertedTwinsAgree(c, r, m) {
      UnitedLinks(c, r, m);
    }
    if cm :| Linked(BOTH, r, m, cm) {
      forall d, e, v | d in r.converted && e in r.converted && Twins(c, d, e) && m.refs(d, v) ensures m.refs(e, v) {
        SharedExactlyWhen(c, r, d, e);
        assert LinkedOn(BOTH, d, r.converted[d].name, v, m, cm) && LinkedOn(BOTH, e, r.converted[e].name, v, m, cm);
      }
    }
  }

  /** Every component read as any definition converted to it. */
  ghost function United(r: Reg, m: Meaning): Meaning
  {
    Meaning((n, v) => exists d | d in r.converted && r.converted[d] == ORef(n) :: m.refs(d, v), m.ext)
  }

  lemma SharersMean(c: Context, r: Reg, m: Meaning, d: string, e: string, v: Json)
    requires Inv(c, r) && NoAnonNames(c) && ConvertedTwinsAgree(c, r, m)
    requires d in r.converted && e in r.converted && r.converted[d] == r.converted[e]
    ensures m.refs(e, v) ==> m.refs(d, v)
  {
    SharedExactlyWhen(c, r, e, d);
    if d != e { assert Twins(c, e, d); }
  }

  lemma UnitedLinks(c: Context, r: Reg, m: Meaning)
    requires Inv(c, r) && NoAnonNames(c) && ConvertedTwinsAgree(c, r, m)
    ensures Linked(BOTH, r, m, United(r, m))
  {
    forall d, v | d in r.converted && r.converted[d].ORef? ensures LinkedOn(BOTH, d, r.converted[d].name, v, m, United(r, m)) {
      if United(r, m).refs(r.converted[d].name, v) {
        var e :| e in r.converted && r.converted[e] == ORef(r.converted[d].name) && m.refs(e, v);
        SharersMean(c, r, m, d, e, v);
      }
    }
  }

  /** Definitions that share a component mean the same, if twins do. */
  lemma SharersAgree(c: Context, r: Reg, m: Meaning, d: string, e: string, v: Json)
    requires Inv(c, r) && TwinsAgree(c, m) && d in r.converted && e in r.converted && d in c.universe && e in c.universe
    requires r.converted[d] == r.converted[e] && r.converted[d].name !in c.swaggerOwned
    ensures Valid(Body(c, d), v, m) <==> Valid(Body(c, e), v, m)
  {
    if d != e {
      SharingIsEarned(c, r, d, e);
      assert Justified(c, r, d, r.converted[d].name);
      assert Twins(c, d, e);
    }
  }

  lemma ComponentsLinked(side: Side, c: Context, r: Reg, ops: seq<Op>, outs: seq<Out>, m: Meaning,
                         swagger: (string, Json) -> bool)
    requires side.sound
    requires Inv(c, r) && NoAnonNames(c) && TwinsAgree(c, m) && Solves(side, c, m) && SwaggerAgrees(side, c, m, swagger)
    requires |ops| == |outs| && AllApart(c, r, ops, outs)
    ensures Linked(side, r, m, ComponentMeaning(c, r, ops, outs, m, swagger))
  {
    var cm := ComponentMeaning(c, r, ops, outs, m, swagger);
    forall d, v | d in r.converted && r.converted[d].ORef? ensures LinkedOn(side, d, r.converted[d].name, v, m, cm) {
      var n := r.converted[d].name;
      if n in c.swaggerOwned {
        OwnedName(c, r, d);
      } else if side.exact && cm.refs(n, v) {
        DefinitionMeans(c, r, ops, outs, m, swagger, d, v);
        var e :| e in r.converted && r.converted[e] == ORef(n) && m.refs(e, v);
        SharersAgree(c, r, m, d, e, v);
      }
    }
  }

  /** What a definition's component means comes from a definition. */
  lemma DefinitionMeans(c: Context, r: Reg, ops: seq<Op>, outs: seq<Out>, m: Meaning, swagger: (string, Json) -> bool,
                        d: string, v: Json)
    requires Inv(c, r) && NoAnonNames(c) && |ops| == |outs| && AllApart(c, r, ops, outs)
    requires d in r.converted && r.converted[d].name !in c.swaggerOwned
    requires ComponentMeaning(c, r, ops, outs, m, swagger).refs(r.converted[d].name, v)
    ensures exists e | e in r.converted && r.converted[e] == r.converted[d] :: m.refs(e, v)
  {
    var n := r.converted[d].name;
    forall i: nat | Adds(ops, outs, i, n) ensures false {
      ApartUnconverted(c, r, n, d);
    }
  }

  /** What an added component means is what was added. */
  lemma AddedMeans(c: Context, r: Reg, ops: seq<Op>, outs: seq<Out>, m: Meaning, swagger: (string, Json) -> bool, i: nat, v: Json)
    requires Inv(c, r) && NoAnonNames(c) && |ops| == |outs| && AllApart(c, r, ops, outs) && i < |ops| && ops[i].Add?
    ensures ComponentMeaning(c, r, ops, outs, m, swagger).refs(outs[i].name, v) <==> Valid(ops[i].schema, v, m)
  {
    var n := outs[i].name;
    forall d | d in r.converted ensures r.converted[d] != ORef(n) { ApartUnconverted(c, r, n, d); }
    assert Adds(ops, outs, i, n);
    forall j: nat | Adds(ops, outs, j, n) ensures j == i {}
  }

  /** What a stored component must mean. */
  ghost predicate ComponentKeepsMeaning(side: Side, r: Reg, n: string, cm: Meaning)
    requires n in r.schemas
  {
    forall v :: (cm.refs(n, v) ==> OValid(r.schemas[n], v, cm)) && (side.exact && OValid(r.schemas[n], v, cm) ==> cm.refs(n, v))
  }

  lemma BackedKeepsMeaning(side: Side, c: Context, r: Reg, n: string, ops: seq<Op>, outs: seq<Out>, m: Meaning,
                           swagger: (string, Json) -> bool)
    requires side.sound && Inv(c, r) && NoAnonNames(c) && TwinsAgree(c, m) && DefinitionsOk(side.exact, c) && Solves(side, c, m)
    requires n in r.schemas && n !in c.swaggerOwned && |ops| == |outs| && AllApart(c, r, ops, outs)
    requires Backed(side, c, r, n, m, ComponentMeaning(c, r, ops, outs, m, swagger))
    ensures ComponentKeepsMeaning(side, r, n, ComponentMeaning(c, r, ops, outs, m, swagger))
  {
    var cm := ComponentMeaning(c, r, ops, outs, m, swagger);
    var d :| d in r.converted && d in c.universe && r.converted[d] == ORef(n)
             && Faithful(side, c, Body(c, d), r.schemas[n], m, cm);
    forall v ensures (cm.refs(n, v) ==> OValid(r.schemas[n], v, cm)) && (side.exact && OValid(r.schemas[n], v, cm) ==> cm.refs(n, v)) {
      assert AgreesOn(side, Body(c, d), r.schemas[n], v, m, cm);
      if cm.refs(n, v) {
        DefinitionMeans(c, r, ops, outs, m, swagger, d, v);
        var e :| e in r.converted && r.converted[e] == ORef(n) && m.refs(e, v);
        SharersAgree(c, r, m, d, e, v);
      }
    }
  }

  /** The operations are in the fragment; for exactness, no bare null is added as a component. */
  ghost predicate OpsFit(exact: bool, c: Context, ops: seq<Op>)
  {
    forall i | 0 <= i < |ops| ::
      SchemaOk(exact, c, ops[i].schema) && (exact && ops[i].Add? ==> !NullVariant(c, ops[i].schema))
  }

  /** The component holds the conversion of what was added under its name. */
  ghost predicate StoredFor(side: Side, c: Context, r: Reg, n: string, ops: seq<Op>, outs: seq<Out>, m: Meaning, cm: Meaning)
    requires n in r.schemas
  {
    exists i: nat :: Adds(ops, outs, i, n) && Faithful(side, c, ops[i].schema, r.schemas[n], m, cm)
  }

  ghost predicate NewFilled(side: Side, c: Context, r: Reg, r': Reg, ops: seq<Op>, outs: seq<Out>, m: Meaning, cm: Meaning)
  {
    forall n | n in r'.schemas && n !in r.schemas ::
      Backed(side, c, r', n, m, cm) || StoredFor(side, c, r', n, ops, outs, m, cm)
  }

  ghost predicate OutsAgree(side: Side, ops: seq<Op>, outs: seq<Out>, m: Meaning, cm: Meaning)
  {
    |ops| == |outs| && forall i | 0 <= i < |ops| :: Agrees(side, ops[i].schema, outs[i], m, cm)
  }

  /** What a conversion returns agrees; references in every result occur positively. */
  ghost predicate ConvertsAgree(side: Side, ops: seq<Op>, outs: seq<Out>, m: Meaning, cm: Meaning)
  {
    && |ops| == |outs|
    && forall i | 0 <= i < |ops| :: Steady(outs[i]) && (ops[i].Convert? ==> Agrees(side, ops[i].schema, outs[i], m, cm))
  }

  predicate AddedOn(side: Side, op: Op, name: string, v: Json, m: Meaning, cm: Meaning)
  {
    (side.sound && Valid(op.schema, v, m) ==> cm.refs(name, v)) && (side.exact && cm.refs(name, v) ==> Valid(op.schema, v, m))
  }

  /** An added component means what was added. */
  ghost predicate AddedMean(side: Side, ops: seq<Op>, outs: seq<Out>, m: Meaning, cm: Meaning)
  {
    forall i, v | 0 <= i < |ops| == |outs| && ops[i].Add? && outs[i].ORef? :: AddedOn(side, ops[i], outs[i].name, v, m, cm)
  }

  lemma AddedAgree(side: Side, ops: seq<Op>, outs: seq<Out>, m: Meaning, cm: Meaning)
    requires ConvertsAgree(side, ops, outs, m, cm) && AddedMean(side, ops, outs, m, cm)
    requires forall i | 0 <= i < |ops| && ops[i].Add? :: outs[i].ORef?
    ensures OutsAgree(side, ops, outs, m, cm)
  {
    forall i | 0 <= i < |ops| ensures Agrees(side, ops[i].schema, outs[i], m, cm) {
      if ops[i].Add? {
        forall w ensures AgreesOn(side, ops[i].schema, outs[i], w, m, cm) {
          assert AddedOn(side, ops[i], outs[i].name, w, m, cm);
        }
      }
    }
  }

  /** One operation: its result agrees, and the new components are filled. */
  lemma StepFaithful(side: Side, c: Context, r: Reg, op: Op, m: Meaning, cm: Meaning)
    requires Setting(side, c, r, m, cm) && RefsIn(op.schema, c.universe) && SchemaOk(side.exact, c, op.schema)
    requires Linked(side, StepF(c, r, op).reg, m, cm)
    ensures ConvertsAgree(side, [op], [StepF(c, r, op).out], m, cm)
    ensures NewFilled(side, c, r, StepF(c, r, op).reg, [op], [StepF(c, r, op).out], m, cm)
  {
    var res, step := ConvertF(c, r, op.schema), StepF(c, r, op);
    assert Linked(side, res.reg, m, cm) by { LinkedBefore(side, res.reg, step.reg, m, cm); }
    ConvertFaithful(side, c, r, op.schema, m, cm);
    if op.Add? {
      assert [op][0] == op && [step.out][0] == step.out;
      forall n | n in step.reg.schemas && n !in r.schemas
        ensures Backed(side, c, step.reg, n, m, cm) || StoredFor(side, c, step.reg, n, [op], [step.out], m, cm)
      {
        if n == step.out.name {
          assert Adds([op], [step.out], 0, n);
        } else {
          BackedStays(side, c, res.reg, step.reg, n, m, cm);
        }
      }
    }
  }

  lemma BackedStays(side: Side, c: Context, r: Reg, r': Reg, n: string, m: Meaning, cm: Meaning)
    requires n in r.schemas && n in r'.schemas && r'.schemas[n] == r.schemas[n] && Grows(r.converted, r'.converted)
    requires Backed(side, c, r, n, m, cm)
    ensures Backed(side, c, r', n, m, cm)
  {
    var d :| d in r.converted && d in c.universe && r.converted[d] == ORef(n)
             && Faithful(side, c, Body(c, d), r.schemas[n], m, cm);
    assert r'.converted[d] == ORef(n);
  }

  lemma FilledThen(side: Side, c: Context, r: Reg, r1: Reg, r2: Reg, ops: seq<Op>, outs: seq<Out>, op: Op, o: Out,
                   m: Meaning, cm: Meaning)
    requires |ops| == |outs| && NewFilled(side, c, r, r1, ops, outs, m, cm) && NewFilled(side, c, r1, r2, [op], [o], m, cm)
    requires Grows(r1.schemas, r2.schemas) && Grows(r1.converted, r2.converted)
    ensures NewFilled(side, c, r, r2, ops + [op], outs + [o], m, cm)
  {
    forall n | n in r2.schemas && n !in r.schemas
      ensures Backed(side, c, r2, n, m, cm) || StoredFor(side, c, r2, n, ops + [op], outs + [o], m, cm)
    {
      if n !in r1.schemas {
        StoredLast(side, c, r2, n, ops, outs, op, o, m, cm);
      } else if Backed(side, c, r1, n, m, cm) {
        BackedStays(side, c, r1, r2, n, m, cm);
      } else {
        var i: nat :| Adds(ops, outs, i, n) && Faithful(side, c, ops[i].schema, r1.schemas[n], m, cm);
        assert Adds(ops + [op], outs + [o], i, n) && (ops + [op])[i] == ops[i];
      }
    }
  }

  lemma StoredLast(side: Side, c: Context, r: Reg, n: string, ops: seq<Op>, outs: seq<Out>, op: Op, o: Out,
                   m: Meaning, cm: Meaning)
    requires |ops| == |outs| && n in r.schemas
    ensures StoredFor(side, c, r, n, [op], [o], m, cm) ==> StoredFor(side, c, r, n, ops + [op], outs + [o], m, cm)
  {
    if StoredFor(side, c, r, n, [op], [o], m, cm) {
      var i: nat :| Adds([op], [o], i, n) && Faithful(side, c, [op][i].schema, r.schemas[n], m, cm);
      assert i == 0 && Adds(ops + [op], outs + [o], |ops|, n);
    }
  }

  lemma StepGrows(c: Context, r: Reg, op: Op)
    requires Registry.Closed(c) && NoAnonNames(c) && Settled(c, r) && RefsIn(op.schema, c.universe)
    requires op.Add? ==> !AnonLike(op.wanted)
    ensures Grows(r.converted, StepF(c, r, op).reg.converted) && Grows(r.schemas, StepF(c, r, op).reg.schemas)
  {
    ConvertKeeps(c, r, op.schema);
    StepSettled(c, r, op);
  }

  lemma {:induction false} RunFaithful(side: Side, c: Context, r: Reg, ops: seq<Op>, m: Meaning, cm: Meaning)
    requires Settled(c, r) && Setting(side, c, r, m, cm) && OpsOk(c, ops) && OpsFit(side.exact, c, ops)
    requires Linked(side, RunF(c, r, ops).reg, m, cm)
    ensures ConvertsAgree(side, ops, RunF(c, r, ops).out, m, cm)
    ensures NewFilled(side, c, r, RunF(c, r, ops).reg, ops, RunF(c, r, ops).out, m, cm)
  {
    if ops != [] {
      var n := |ops| - 1;
      var before := RunF(c, r, ops[..n]);
      var here := StepF(c, before.reg, ops[n]);
      RunClosed(c, r, ops[..n]);
      StepGrows(c, before.reg, ops[n]);
      LinkedBefore(side, before.reg, here.reg, m, cm);
      RunFaithful(side, c, r, ops[..n], m, cm);
      StepFaithful(side, c, before.reg, ops[n], m, cm);
      LastSplit(ops);
      ConvertsThen(side, ops[..n], before.out, ops[n], here.out, m, cm);
      FilledThen(side, c, r, before.reg, here.reg, ops[..n], before.out, ops[n], here.out, m, cm);
    }
  }

  lemma ConvertsThen(side: Side, ops: seq<Op>, outs: seq<Out>, op: Op, o: Out, m: Meaning, cm: Meaning)
    requires ConvertsAgree(side, ops, outs, m, cm) && ConvertsAgree(side, [op], [o], m, cm)
    ensures ConvertsAgree(side, ops + [op], outs + [o], m, cm)
  {
    assert [op][0] == op && [o][0] == o;
  }

  lemma StoredKeepsMeaning(side: Side, c: Context, r: Reg, n: string, ops: seq<Op>, outs: seq<Out>, m: Meaning, cm: Meaning)
    requires side.sound && n in r.schemas && OpsFit(side.exact, c, ops) && AddedMean(BOTH, ops, outs, m, cm)
    requires StoredFor(side, c, r, n, ops, outs, m, cm)
    ensures ComponentKeepsMeaning(side, r, n, cm)
  {
    var i: nat :| Adds(ops, outs, i, n) && Faithful(side, c, ops[i].schema, r.schemas[n], m, cm);
    forall v ensures (cm.refs(n, v) ==> OValid(r.schemas[n], v, cm)) && (side.exact && OValid(r.schemas[n], v, cm) ==> cm.refs(n, v)) {
      assert AgreesOn(side, ops[i].schema, r.schemas[n], v, m, cm);
      assert AddedOn(BOTH, ops[i], outs[i].name, v, m, cm);
    }
  }

  /** In every result and every component of the run references occur positively. */
  ghost predicate AllSteady(c: Context, res: Result<seq<Out>>)
  {
    && (forall i | 0 <= i < |res.out| :: Steady(res.out[i]))
    && (forall n | n in res.reg.schemas && n !in c.swaggerOwned :: Steady(res.reg.schemas[n]))
  }

  lemma FilledSteady(side: Side, c: Context, r: Reg, r': Reg, ops: seq<Op>, outs: seq<Out>, m: Meaning, cm: Meaning)
    requires NewFilled(side, c, r, r', ops, outs, m, cm)
    ensures forall n | n in r'.schemas && n !in r.schemas :: Steady(r'.schemas[n])
  {
    forall n | n in r'.schemas && n !in r.schemas ensures Steady(r'.schemas[n]) {
      if Backed(side, c, r', n, m, cm) {
        var d :| d in r'.converted && d in c.universe && r'.converted[d] == ORef(n)
                 && Faithful(side, c, Body(c, d), r'.schemas[n], m, cm);
      } else {
        var i: nat :| Adds(ops, outs, i, n) && Faithful(side, c, ops[i].schema, r'.schemas[n], m, cm);
      }
    }
  }

  /**
    The translation keeps its meaning, through any references and cycles, over any run of conversions and
    additions: let `m` be any solution of the definitions' equations under which twins agree. Then under the
    components' meaning every result accepts what its source accepts, and the stored components solve their
    own equations. Exactly, on the exact fragment.
  */
  lemma ConversionKeepsMeaning(side: Side, c: Context, swaggerSchemas: map<string, Out>, ops: seq<Op>, m: Meaning,
                               swagger: (string, Json) -> bool)
    requires side.sound && c.swaggerOwned == swaggerSchemas.Keys && Settled(c, Initial(swaggerSchemas))
    requires Registry.Closed(c) && OpsOk(c, ops) && NoAnonNames(c) && TwinsAgree(c, m)
    requires DefinitionsOk(side.exact, c) && OpsFit(side.exact, c, ops)
    requires Solves(side, c, m) && SwaggerAgrees(side, c, m, swagger) && (side.exact ==> forall k, j :: m.ext(k, j, JNull))
    ensures var res := RunF(c, Initial(swaggerSchemas), ops);
      var cm := ComponentMeaning(c, res.reg, ops, res.out, m, swagger);
      && OutsAgree(side, ops, res.out, m, cm)
      && (forall n | n in res.reg.schemas && n !in c.swaggerOwned :: ComponentKeepsMeaning(side, res.reg, n, cm))
      && AllSteady(c, res)
  {
    var r := Initial(swaggerSchemas);
    var res := RunF(c, r, ops);
    var cm := ComponentMeaning(c, res.reg, ops, res.out, m, swagger);
    RunClosed(c, r, ops);
    RunApart(c, r, ops);
    ComponentsLinked(side, c, res.reg, ops, res.out, m, swagger);
    forall i, v | 0 <= i < |ops| && ops[i].Add? && res.out[i].ORef?
      ensures AddedOn(BOTH, ops[i], res.out[i].name, v, m, cm)
    {
      AddedMeans(c, res.reg, ops, res.out, m, swagger, i, v);
    }
    RunFaithful(side, c, r, ops, m, cm);
    assert AddedMean(side, ops, res.out, m, cm) by {
      forall i, v | 0 <= i < |ops| && ops[i].Add? && res.out[i].ORef? ensures AddedOn(side, ops[i], res.out[i].name, v, m, cm) {
        assert AddedOn(BOTH, ops[i], res.out[i].name, v, m, cm);
      }
    }
    AddedAgree(side, ops, res.out, m, cm);
    FilledSteady(side, c, r, res.reg, ops, res.out, m, cm);
    forall n | n in res.reg.schemas && n !in c.swaggerOwned ensures ComponentKeepsMeaning(side, res.reg, n, cm) {
      assert n !in r.schemas;
      if Backed(side, c, res.reg, n, m, cm) {
        BackedKeepsMeaning(side, c, res.reg, n, ops, res.out, m, swagger);
      } else {
        StoredKeepsMeaning(side, c, res.reg, n, ops, res.out, m, cm);
      }
    }
  }

  // ----- end to end -----

  /** The fragment has no source `oneOf`. */
  lemma {:induction false} FragmentIsPositive(exact: bool, c: Context, s: Schema)
    requires SchemaOk(exact, c, s)
    ensures Positive(s)
    decreases s
  {
    if s.Obj? {
      forall i | 0 <= i < |s.entries| ensures EntryPositive(s.entries[i]) {
        assert EntryInFragment(s.entries[i]);
        if s.entries[i].Group? { KidsArePositive(exact, c, s.entries[i].kids); }
      }
    }
  }

  lemma {:induction false} KidsArePositive(exact: bool, c: Context, kids: seq<Kid>)
    requires KidsOk(exact, c, kids)
    ensures KidsPositive(kids)
    decreases kids
  {
    forall i | 0 <= i < |kids| ensures Positive(kids[i].schema) { FragmentIsPositive(exact, c, kids[i].schema); }
  }

  /** What a run converts. */
  function Roots(ops: seq<Op>): (roots: seq<Kid>)
    ensures |roots| == |ops| && forall i | 0 <= i < |ops| :: roots[i] == Kid("", ops[i].schema)
  {
    seq(|ops|, i requires 0 <= i < |ops| => Kid("", ops[i].schema))
  }

  /** The context of a run: the measure's names are those that occur. */
  function GraphContext(definitions: map<string, Schema>, owned: set<string>, ops: seq<Op>): (c: Context)
    ensures Registry.Closed(c) && c.swaggerOwned == owned
    ensures forall i | 0 <= i < |ops| :: RefsIn(ops[i].schema, c.universe)
  {
    EveryGraphConverts(definitions, owned, Roots(ops));
    var c := Context(definitions, owned, Universe(definitions, Roots(ops)));
    assert forall i | 0 <= i < |ops| :: RefsIn(Roots(ops)[i].schema, c.universe);
    c
  }

  /**
    End to end, with nothing assumed to exist: for every graph of definitions in the fragment, cyclic or
    not, read as "passes every bounded unrolling", and every run of conversions and additions, each result
    accepts every value its source accepts; on the exact fragment a result that is not a bare null accepts
    exactly those. The components' meaning is one under which each stored component agrees with its own schema.
  */
  lemma EveryGraphKeepsMeaning(side: Side, definitions: map<string, Schema>, swaggerSchemas: map<string, Out>,
                               ops: seq<Op>, ext: Ext, swagger: (string, Json) -> bool)
    returns (cm: Meaning)
    requires side.sound
    requires forall n | n in swaggerSchemas :: RefsTo(swaggerSchemas[n], swaggerSchemas.Keys) && !AnonLike(n)
    requires var c := GraphContext(definitions, swaggerSchemas.Keys, ops);
      && NoAnonNames(c) && TwinsAgree(c, Limit(c, ext)) && DefinitionsOk(side.exact, c) && OpsOk(c, ops) && OpsFit(side.exact, c, ops)
      && SwaggerAgrees(side, c, Limit(c, ext), swagger)
    requires side.exact ==> forall k, j :: ext(k, j, JNull)
    ensures cm.ext == ext && forall n, v | n in swaggerSchemas :: cm.refs(n, v) <==> swagger(n, v)
    ensures var c := GraphContext(definitions, swaggerSchemas.Keys, ops);
      var res := RunF(c, Initial(swaggerSchemas), ops);
      && (forall i, v | 0 <= i < |ops| :: Valid(ops[i].schema, v, Limit(c, ext)) ==> OValid(res.out[i], v, cm))
      && (forall i, v | 0 <= i < |ops| && side.exact && !IsNullSchema(res.out[i]) ::
            OValid(res.out[i], v, cm) ==> Valid(ops[i].schema, v, Limit(c, ext)))
      && (forall n | n in res.reg.schemas && n !in c.swaggerOwned :: ComponentKeepsMeaning(side, res.reg, n, cm))
  {
    var c := GraphContext(definitions, swaggerSchemas.Keys, ops);
    var m := Limit(c, ext);
    InitialSettled(c, swaggerSchemas);
    forall d | d in c.universe ensures Positive(Body(c, d)) { FragmentIsPositive(side.exact, c, Body(c, d)); }
    LimitSolves(c, ext);
    assert Solves(side, c, m);
    ConversionKeepsMeaning(side, c, swaggerSchemas, ops, m, swagger);
    var res := RunF(c, Initial(swaggerSchemas), ops);
    cm := ComponentMeaning(c, res.reg, ops, res.out, m, swagger);
    forall i, v | 0 <= i < |ops|
      ensures Valid(ops[i].schema, v, m) ==> OValid(res.out[i], v, cm)
      ensures side.exact && !IsNullSchema(res.out[i]) && OValid(res.out[i], v, cm) ==> Valid(ops[i].schema, v, m)
    {
      assert AgreesOn(side, ops[i].schema, res.out[i], v, m, cm);
    }
  }
}
