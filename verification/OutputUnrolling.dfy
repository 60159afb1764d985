/**
  The results of a run read on their own: a value meets a component if it passes every bounded unrolling of the
  stored components. No reading of the components has to be assumed.
*/
module OutputUnrolling {
  import opened JsonSchema
  import opened OpenApi
  import opened SchemaRewrite
  import opened SchemaMeaning
  import opened OutputMono
  import opened ComponentNames
  import opened Registry
  import opened RegistryInvariants
  import opened BoundedMeaning
  import opened RegistryMeaning
  import opened RegistryRuns
  import opened RunMeaning

  /** What is stored, with the components that Swagger describes. */
  datatype Api = Api(schemas: map<string, Out>, owned: set<string>, swagger: (string, Json) -> bool, ext: Ext)

  predicate Given(a: Api, n: string)
  {
    n in a.owned || n !in a.schemas
  }

  /** Validation with `k` levels of components; below that, and for names that are not stored, anything passes. */
  predicate OutDepth(a: Api, k: nat, n: string, v: Json)
    decreases k
  {
    if n in a.owned then a.swagger(n, v)
    else k == 0 || n !in a.schemas || OValid(a.schemas[n], v, Meaning((e, w) => OutDepth(a, k - 1, e, w), a.ext))
  }

  function OutMeaning(a: Api, k: nat): Meaning
  {
    Meaning((n, v) => OutDepth(a, k, n, v), a.ext)
  }

  /** Passing at every depth. */
  ghost function OutLimit(a: Api): Meaning
  {
    Meaning((n, v) => forall k: nat :: OutDepth(a, k, n, v), a.ext)
  }

  ghost predicate SteadyApi(a: Api)
  {
    forall n | n in a.schemas && n !in a.owned :: Steady(a.schemas[n])
  }

  // ----- deeper accepts less -----

  lemma {:induction false} OutDecreases(a: Api, k: nat, n: string, v: Json)
    requires SteadyApi(a) && OutDepth(a, k + 1, n, v)
    ensures OutDepth(a, k, n, v)
    decreases k
  {
    if k > 0 && !Given(a, n) {
      var m1, m2 := OutMeaning(a, k), OutMeaning(a, k - 1);
      forall e, w | m1.refs(e, w) ensures m2.refs(e, w) { OutDecreases(a, k - 1, e, w); }
      OutMono(a.schemas[n], v, m1, m2);
    }
  }

  lemma {:induction false} DeeperOut(a: Api, k: nat, l: nat)
    requires SteadyApi(a) && k <= l
    ensures Below(OutMeaning(a, l), OutMeaning(a, k))
    decreases l - k
  {
    if k < l {
      DeeperOut(a, k + 1, l);
      forall n, v | OutDepth(a, k + 1, n, v) ensures OutDepth(a, k, n, v) { OutDecreases(a, k, n, v); }
    }
  }

  lemma FailsLower(a: Api, o: Out, v: Json, k: nat, l: nat)
    requires SteadyApi(a) && Steady(o) && k <= l && !OValid(o, v, OutMeaning(a, k))
    ensures !OValid(o, v, OutMeaning(a, l))
  {
    DeeperOut(a, k, l);
    if OValid(o, v, OutMeaning(a, l)) { OutMono(o, v, OutMeaning(a, l), OutMeaning(a, k)); }
  }

  lemma LimitBelow(a: Api, k: nat)
    ensures Below(OutLimit(a), OutMeaning(a, k))
  {
  }

  // ----- what fails in the limit fails at some depth -----

  lemma {:induction false} FailsAt(a: Api, o: Out, v: Json) returns (k: nat)
    requires SteadyApi(a) && Steady(o) && !OValid(o, v, OutLimit(a))
    ensures !OValid(o, v, OutMeaning(a, k))
    decreases o, 1
  {
    if o.ORef? {
      k :| !OutDepth(a, k, o.name, v);
    } else {
      k := ConstraintFailsAt(a, o, v);
    }
  }

  lemma {:induction false} ConstraintFailsAt(a: Api, o: Out, v: Json) returns (k: nat)
    requires SteadyApi(a) && o.ONode? && SteadyKids(o) && !Constraints(o, v, OutLimit(a))
    ensures !Constraints(o, v, OutMeaning(a, k))
    decreases o, 0
  {
    var m := OutLimit(a);
    k := 0;
    if !PropsOk(o.props, v, m) {
      var key :| key in o.props.value && key in v.members && !OValid(o.props.value[key], v.members[key], m);
      k := FailsAt(a, o.props.value[key], v.members[key]);
    } else if !ItemsOk(o.items, v, m) {
      var j :| 0 <= j < |v.items| && !OValid(o.items.value, v.items[j], m);
      k := FailsAt(a, o.items.value, v.items[j]);
    } else if !AdditionalOk(o.additional, OutNames(o), v, m) {
      k := AdditionalFailsAt(a, o.additional, OutNames(o), v);
    } else if !AnyOfOk(o.anyOf, v, m) {
      k := AllFailAt(a, o.anyOf, v);
    } else if !OneOfOk(o.oneOf, v, m) {
      forall i | 0 <= i < |o.oneOf.list| ensures !OValid(o.oneOf.list[i], v, m) {
        if OValid(o.oneOf.list[i], v, m) { AtMostOne(o.oneOf.list, i, v, m); }
      }
      k := AllFailAt(a, o.oneOf, v);
    } else if !AllOfOk(o.allOf, v, m) {
      var i :| 0 <= i < |o.allOf.list| && !OValid(o.allOf.list[i], v, m);
      k := FailsAt(a, o.allOf.list[i], v);
    }
  }

  lemma {:induction false} AdditionalFailsAt(a: Api, add: AdditionalKw, names: set<string>, v: Json) returns (k: nat)
    requires SteadyApi(a) && (add.AddSchema? ==> Steady(add.schema)) && !AdditionalOk(add, names, v, OutLimit(a))
    ensures !AdditionalOk(add, names, v, OutMeaning(a, k))
    decreases add, 0
  {
    k := 0;
    if add.AddSchema? {
      var key :| key in v.members && key !in names && !OValid(add.schema, v.members[key], OutLimit(a));
      k := FailsAt(a, add.schema, v.members[key]);
    }
  }

  /** Finitely many variants all fail from some common depth on. */
  lemma {:induction false} AllFailAt(a: Api, vs: Variants, v: Json) returns (k: nat)
    requires SteadyApi(a) && vs.Variants? && SteadyVariants(vs)
    requires forall i | 0 <= i < |vs.list| :: !OValid(vs.list[i], v, OutLimit(a))
    ensures forall i | 0 <= i < |vs.list| :: !OValid(vs.list[i], v, OutMeaning(a, k))
    decreases vs, 0
  {
    k := ListFailsAt(a, vs.list, v);
  }

  lemma {:induction false} ListFailsAt(a: Api, outs: seq<Out>, v: Json) returns (k: nat)
    requires SteadyApi(a) && SteadyVariants(Variants(outs))
    requires forall i | 0 <= i < |outs| :: !OValid(outs[i], v, OutLimit(a))
    ensures forall i | 0 <= i < |outs| :: !OValid(outs[i], v, OutMeaning(a, k))
    decreases outs, 0
  {
    k := 0;
    if outs != [] {
      var last := |outs| - 1;
      assert forall i | 0 <= i < |outs| :: Steady(Variants(outs).list[i]);
      var x := ListFailsAt(a, outs[..last], v);
      var y := FailsAt(a, outs[last], v);
      k := if x < y then y else x;
      forall i | 0 <= i < |outs| ensures !OValid(outs[i], v, OutMeaning(a, k)) {
        if i < last { assert outs[..last][i] == outs[i]; }
        FailsLower(a, outs[i], v, if i < last then x else y, k);
      }
    }
  }

  /** The unrolling is a reading of the stored components: each means exactly what is stored under its name. */
  lemma OutLimitSolves(a: Api, n: string, v: Json)
    requires SteadyApi(a) && n in a.schemas && n !in a.owned
    ensures OutLimit(a).refs(n, v) <==> OValid(a.schemas[n], v, OutLimit(a))
  {
    var m := OutLimit(a);
    if !OValid(a.schemas[n], v, m) {
      var k := FailsAt(a, a.schemas[n], v);
      assert !OutDepth(a, k + 1, n, v);
    } else {
      forall k: nat ensures OutDepth(a, k, n, v) {
        if k > 0 {
          LimitBelow(a, k - 1);
          OutMono(a.schemas[n], v, m, OutMeaning(a, k - 1));
        }
      }
    }
  }

  /** A reading under which every component accepts no more than what is stored. */
  ghost predicate ReadsBelow(a: Api, cm: Meaning)
  {
    && cm.ext == a.ext
    && (forall n, v | n in a.owned && cm.refs(n, v) :: a.swagger(n, v))
    && (forall n, v | n in a.schemas && n !in a.owned && cm.refs(n, v) :: OValid(a.schemas[n], v, cm))
  }

  /** The unrolling is the greatest such reading. */
  lemma {:induction false} OutLimitIsGreatest(a: Api, cm: Meaning, k: nat)
    requires SteadyApi(a) && ReadsBelow(a, cm)
    ensures Below(cm, OutMeaning(a, k))
    decreases k
  {
    forall n, v | cm.refs(n, v) ensures OutDepth(a, k, n, v) {
      if k > 0 && !Given(a, n) {
        OutLimitIsGreatest(a, cm, k - 1);
        OutMono(a.schemas[n], v, cm, OutMeaning(a, k - 1));
      }
    }
  }

  lemma BelowLimit(a: Api, cm: Meaning)
    requires SteadyApi(a) && ReadsBelow(a, cm)
    ensures Below(cm, OutLimit(a))
  {
    forall n, v | cm.refs(n, v) ensures OutLimit(a).refs(n, v) {
      forall k: nat ensures OutDepth(a, k, n, v) {
        OutLimitIsGreatest(a, cm, k);
      }
    }
  }

  // ----- the results of a run, read back -----

  /** Twins agree under every reading: a checkable condition is that of `TwinsAgreeWhen`. */
  ghost predicate TwinsAlwaysAgree(c: Context)
  {
    forall m :: TwinsAgree(c, m)
  }

  /** The conditions of a run, for the sides of the agreement that are meant. */
  ghost predicate Ready(side: Side, c: Context, swaggerSchemas: map<string, Out>, ops: seq<Op>, ext: Ext,
                        swagger: (string, Json) -> bool)
  {
    && c.swaggerOwned == swaggerSchemas.Keys && Settled(c, Initial(swaggerSchemas))
    && Registry.Closed(c) && OpsOk(c, ops) && NoAnonNames(c) && TwinsAlwaysAgree(c)
    && DefinitionsOk(side.exact, c) && OpsFit(side.exact, c, ops) && DefinitionsPositive(c)
    && SwaggerAgrees(side, c, Limit(c, ext), swagger)
    && (side.exact ==> forall k, j :: ext(k, j, JNull))
  }

  function ApiOf(r: Reg, owned: set<string>, swagger: (string, Json) -> bool, ext: Ext): Api
  {
    Api(r.schemas, owned, swagger, ext)
  }

  lemma DepthSolvesBack(c: Context, ext: Ext, n: nat)
    requires DefinitionsPositive(c)
    ensures Solves(BACK, c, DepthMeaning(c, ext, n))
  {
    if n > 0 {
      DeeperIsBelow(c, ext, n - 1, n);
      forall d, v | d in c.universe && Valid(Body(c, d), v, DepthMeaning(c, ext, n)) ensures Depth(c, ext, n, d, v) {
        ValidMono(Body(c, d), v, DepthMeaning(c, ext, n), DepthMeaning(c, ext, n - 1));
      }
    }
  }

  /** A component of a definition holds the conversion of a twin of it. */
  lemma BackedBack(c: Context, r: Reg, ops: seq<Op>, outs: seq<Out>, d: string, v: Json, m: Meaning, om: Meaning)
    requires Inv(c, r) && NoAnonNames(c) && |ops| == |outs| && AllApart(c, r, ops, outs)
    requires DefinitionsOk(true, c) && TwinsAgree(c, m) && d in r.converted && d in c.universe
    requires r.converted[d].name in r.schemas && r.converted[d].name !in c.swaggerOwned
    requires Backed(BACK, c, r, r.converted[d].name, m, om)
    requires OValid(r.schemas[r.converted[d].name], v, om)
    ensures Valid(Body(c, d), v, m)
  {
    var n := r.converted[d].name;
    var e :| e in r.converted && e in c.universe && r.converted[e] == ORef(n)
             && Faithful(BACK, c, Body(c, e), r.schemas[n], m, om);
    assert AgreesOn(BACK, Body(c, e), r.schemas[n], v, m, om);
    SharersAgree(c, r, m, d, e, v);
  }

  /** If the definitions are read down to `n` levels, their components accept no more than `n + 1` levels. */
  lemma LinkedNext(c: Context, swaggerSchemas: map<string, Out>, ops: seq<Op>, ext: Ext, swagger: (string, Json) -> bool, n: nat)
    requires Ready(BACK, c, swaggerSchemas, ops, ext, swagger)
    requires var res := RunF(c, Initial(swaggerSchemas), ops);
      var om := OutLimit(ApiOf(res.reg, c.swaggerOwned, swagger, ext));
      AllSteady(c, res) && Linked(BACK, res.reg, DepthMeaning(c, ext, n), om)
    ensures var res := RunF(c, Initial(swaggerSchemas), ops);
      var om := OutLimit(ApiOf(res.reg, c.swaggerOwned, swagger, ext));
      Linked(BACK, res.reg, DepthMeaning(c, ext, n + 1), om)
  {
    var res := RunF(c, Initial(swaggerSchemas), ops);
    var a := ApiOf(res.reg, c.swaggerOwned, swagger, ext);
    var next, om := DepthMeaning(c, ext, n + 1), OutLimit(a);
    RunFilledBack(c, swaggerSchemas, ops, ext, swagger, n);
    forall d, v | d in res.reg.converted && res.reg.converted[d].ORef?
      ensures LinkedOn(BACK, d, res.reg.converted[d].name, v, next, om)
    {
      if om.refs(res.reg.converted[d].name, v) { DefinitionBack(c, res.reg, ops, res.out, a, n, d, v); }
    }
  }

  /** What is known of a finished run, when its components are read back to `n` levels. */
  ghost predicate FilledBack(c: Context, r: Reg, ops: seq<Op>, outs: seq<Out>, a: Api, n: nat)
  {
    && Inv(c, r) && NoAnonNames(c) && |ops| == |outs| && AllApart(c, r, ops, outs)
    && Targets(r) <= r.schemas.Keys && a.schemas == r.schemas && a.owned == c.swaggerOwned && SteadyApi(a)
    && DefinitionsOk(true, c) && TwinsAlwaysAgree(c) && SwaggerAgrees(BACK, c, Limit(c, a.ext), a.swagger)
    && (forall name | name in r.schemas && name !in c.swaggerOwned ::
          || Backed(BACK, c, r, name, DepthMeaning(c, a.ext, n), OutLimit(a))
          || StoredFor(BACK, c, r, name, ops, outs, DepthMeaning(c, a.ext, n), OutLimit(a)))
  }

  lemma RunFilledBack(c: Context, swaggerSchemas: map<string, Out>, ops: seq<Op>, ext: Ext, swagger: (string, Json) -> bool,
                      n: nat)
    requires Ready(BACK, c, swaggerSchemas, ops, ext, swagger)
    requires var res := RunF(c, Initial(swaggerSchemas), ops);
      var om := OutLimit(ApiOf(res.reg, c.swaggerOwned, swagger, ext));
      AllSteady(c, res) && Linked(BACK, res.reg, DepthMeaning(c, ext, n), om)
    ensures var res := RunF(c, Initial(swaggerSchemas), ops);
      var a := ApiOf(res.reg, c.swaggerOwned, swagger, ext);
      && FilledBack(c, res.reg, ops, res.out, a, n)
      && ConvertsAgree(BACK, ops, res.out, DepthMeaning(c, ext, n), OutLimit(a))
  {
    var r := Initial(swaggerSchemas);
    var res := RunF(c, r, ops);
    var a := ApiOf(res.reg, c.swaggerOwned, swagger, ext);
    DepthSolvesBack(c, ext, n);
    RunClosed(c, r, ops);
    RunApart(c, r, ops);
    RunFaithful(BACK, c, r, ops, DepthMeaning(c, ext, n), OutLimit(a));
  }

  lemma DefinitionBack(c: Context, r: Reg, ops: seq<Op>, outs: seq<Out>, a: Api, n: nat, d: string, v: Json)
    requires FilledBack(c, r, ops, outs, a, n) && d in r.converted && OutLimit(a).refs(r.converted[d].name, v)
    ensures Depth(c, a.ext, n + 1, d, v)
  {
    var name := r.converted[d].name;
    if name in c.swaggerOwned {
      OwnedName(c, r, d);
      assert OutDepth(a, 0, name, v);
      assert Limit(c, a.ext).refs(d, v);
    } else {
      assert name in Targets(r);
      OutLimitSolves(a, name, v);
      forall i: nat ensures !Adds(ops, outs, i, name) {
        if Adds(ops, outs, i, name) { ApartUnconverted(c, r, name, d); }
      }
      BackedBack(c, r, ops, outs, d, v, DepthMeaning(c, a.ext, n), OutLimit(a));
    }
  }

  lemma {:induction false} LinkedAt(c: Context, swaggerSchemas: map<string, Out>, ops: seq<Op>, ext: Ext,
                                    swagger: (string, Json) -> bool, n: nat)
    requires Ready(BACK, c, swaggerSchemas, ops, ext, swagger) && AllSteady(c, RunF(c, Initial(swaggerSchemas), ops))
    ensures var res := RunF(c, Initial(swaggerSchemas), ops);
      var om := OutLimit(ApiOf(res.reg, c.swaggerOwned, swagger, ext));
      Linked(BACK, res.reg, DepthMeaning(c, ext, n), om)
    decreases n
  {
    if n > 0 {
      LinkedAt(c, swaggerSchemas, ops, ext, swagger, n - 1);
      LinkedNext(c, swaggerSchemas, ops, ext, swagger, n - 1);
    }
  }

  /** One result, read back to `n` levels. */
  lemma ResultBackAt(c: Context, r: Reg, ops: seq<Op>, outs: seq<Out>, a: Api, n: nat, i: nat, v: Json)
    requires FilledBack(c, r, ops, outs, a, n) && ConvertsAgree(BACK, ops, outs, DepthMeaning(c, a.ext, n), OutLimit(a))
    requires OpsFit(true, c, ops) && i < |ops| && OValid(outs[i], v, OutLimit(a)) && !IsNullSchema(outs[i])
    ensures Valid(ops[i].schema, v, DepthMeaning(c, a.ext, n))
  {
    var m, om := DepthMeaning(c, a.ext, n), OutLimit(a);
    if ops[i].Convert? {
      assert AgreesOn(BACK, ops[i].schema, outs[i], v, m, om);
    } else {
      var name := outs[i].name;
      OutLimitSolves(a, name, v);
      forall d | d in r.converted ensures r.converted[d] != ORef(name) { ApartUnconverted(c, r, name, d); }
      var j: nat :| Adds(ops, outs, j, name) && Faithful(BACK, c, ops[j].schema, r.schemas[name], m, om);
      assert j == i;
      assert AgreesOn(BACK, ops[i].schema, r.schemas[name], v, m, om);
    }
  }

  /** A result that is not a bare null accepts nothing that its source rejects. */
  lemma ResultBack(c: Context, swaggerSchemas: map<string, Out>, ops: seq<Op>, ext: Ext, swagger: (string, Json) -> bool,
                   i: nat, v: Json)
    requires Ready(BACK, c, swaggerSchemas, ops, ext, swagger) && AllSteady(c, RunF(c, Initial(swaggerSchemas), ops))
    requires i < |ops| && Positive(ops[i].schema)
    requires var res := RunF(c, Initial(swaggerSchemas), ops);
      !IsNullSchema(res.out[i]) && OValid(res.out[i], v, OutLimit(ApiOf(res.reg, c.swaggerOwned, swagger, ext)))
    ensures Valid(ops[i].schema, v, Limit(c, ext))
  {
    var res := RunF(c, Initial(swaggerSchemas), ops);
    var a := ApiOf(res.reg, c.swaggerOwned, swagger, ext);
    if !Valid(ops[i].schema, v, Limit(c, ext)) {
      var n := FailsAtDepth(c, ext, ops[i].schema, v);
      LinkedAt(c, swaggerSchemas, ops, ext, swagger, n);
      RunFilledBack(c, swaggerSchemas, ops, ext, swagger, n);
      ResultBackAt(c, res.reg, ops, res.out, a, n, i, v);
      assert false;
    }
  }

  // ----- both ways -----

  /** Each result accepts what its source accepts; exactly that, if so asked and the result is not a bare null. */
  ghost predicate ResultsKeep(exact: bool, ops: seq<Op>, outs: seq<Out>, m: Meaning, om: Meaning)
  {
    && |ops| == |outs|
    && (forall i, v | 0 <= i < |ops| && Valid(ops[i].schema, v, m) :: OValid(outs[i], v, om))
    && (forall i, v | 0 <= i < |ops| && exact && !IsNullSchema(outs[i]) && OValid(outs[i], v, om) :: Valid(ops[i].schema, v, m))
  }

  /** Each stored component means exactly what is stored. */
  ghost predicate ComponentsRead(c: Context, r: Reg, om: Meaning)
  {
    forall n, v | n in r.schemas && n !in c.swaggerOwned :: om.refs(n, v) <==> OValid(r.schemas[n], v, om)
  }

  lemma ReadingBelow(side: Side, c: Context, r: Reg, cm: Meaning, a: Api)
    requires cm.ext == a.ext && a.schemas == r.schemas && a.owned == c.swaggerOwned
    requires forall n, v | n in c.swaggerOwned && cm.refs(n, v) :: a.swagger(n, v)
    requires forall n | n in r.schemas && n !in c.swaggerOwned :: ComponentKeepsMeaning(side, r, n, cm)
    ensures ReadsBelow(a, cm)
  {
  }

  /**
    End to end, with both sides read by bounded unrolling: over every run on every graph in the fragment, each
    result accepts what its source accepts; on the exact fragment a result that is not a bare null accepts
    exactly that. Each stored component means exactly what is stored.
  */
  lemma UnrollingKeepsMeaning(side: Side, c: Context, swaggerSchemas: map<string, Out>, ops: seq<Op>, ext: Ext,
                              swagger: (string, Json) -> bool)
    requires side.sound && Ready(side, c, swaggerSchemas, ops, ext, swagger)
    ensures var res := RunF(c, Initial(swaggerSchemas), ops);
      var m, om := Limit(c, ext), OutLimit(ApiOf(res.reg, c.swaggerOwned, swagger, ext));
      ResultsKeep(side.exact, ops, res.out, m, om) && ComponentsRead(c, res.reg, om)
  {
    var res := RunF(c, Initial(swaggerSchemas), ops);
    var a := ApiOf(res.reg, c.swaggerOwned, swagger, ext);
    UnrollingIsSound(side, c, swaggerSchemas, ops, ext, swagger);
    forall n, v | n in res.reg.schemas && n !in c.swaggerOwned
      ensures OutLimit(a).refs(n, v) <==> OValid(res.reg.schemas[n], v, OutLimit(a))
    {
      OutLimitSolves(a, n, v);
    }
    if side.exact { UnrollingIsExact(c, swaggerSchemas, ops, ext, swagger); }
  }

  lemma UnrollingIsExact(c: Context, swaggerSchemas: map<string, Out>, ops: seq<Op>, ext: Ext, swagger: (string, Json) -> bool)
    requires Ready(BACK, c, swaggerSchemas, ops, ext, swagger) && AllSteady(c, RunF(c, Initial(swaggerSchemas), ops))
    ensures var res := RunF(c, Initial(swaggerSchemas), ops);
      var m, om := Limit(c, ext), OutLimit(ApiOf(res.reg, c.swaggerOwned, swagger, ext));
      forall i, v | 0 <= i < |ops| && !IsNullSchema(res.out[i]) && OValid(res.out[i], v, om) :: Valid(ops[i].schema, v, m)
  {
    var res := RunF(c, Initial(swaggerSchemas), ops);
    var om := OutLimit(ApiOf(res.reg, c.swaggerOwned, swagger, ext));
    forall i, v | 0 <= i < |ops| && !IsNullSchema(res.out[i]) && OValid(res.out[i], v, om)
      ensures Valid(ops[i].schema, v, Limit(c, ext))
    {
      FragmentIsPositive(true, c, ops[i].schema);
      ResultBack(c, swaggerSchemas, ops, ext, swagger, i, v);
    }
  }

  lemma UnrollingIsSound(side: Side, c: Context, swaggerSchemas: map<string, Out>, ops: seq<Op>, ext: Ext,
                         swagger: (string, Json) -> bool)
    requires side.sound && Ready(side, c, swaggerSchemas, ops, ext, swagger)
    ensures var res := RunF(c, Initial(swaggerSchemas), ops);
      var m, om := Limit(c, ext), OutLimit(ApiOf(res.reg, c.swaggerOwned, swagger, ext));
      && AllSteady(c, res)
      && (forall i, v | 0 <= i < |ops| && Valid(ops[i].schema, v, m) :: OValid(res.out[i], v, om))
  {
    var res := RunF(c, Initial(swaggerSchemas), ops);
    var a, m := ApiOf(res.reg, c.swaggerOwned, swagger, ext), Limit(c, ext);
    var cm := ComponentMeaning(c, res.reg, ops, res.out, m, swagger);
    LimitSolves(c, ext);
    assert Solves(side, c, m);
    ConversionKeepsMeaning(side, c, swaggerSchemas, ops, m, swagger);
    ReadingBelow(side, c, res.reg, cm, a);
    BelowLimit(a, cm);
    forall i, v | 0 <= i < |ops| && Valid(ops[i].schema, v, m) ensures OValid(res.out[i], v, OutLimit(a)) {
      assert AgreesOn(side, ops[i].schema, res.out[i], v, m, cm);
      OutMono(res.out[i], v, cm, OutLimit(a));
    }
  }

  /**
    For every graph of definitions in the fragment and every run, with conditions that can be checked before it:
    twins differ in annotations only, or `description` is nowhere more than one.
  */
  lemma EveryGraphUnrolled(exact: bool, definitions: map<string, Schema>, swaggerSchemas: map<string, Out>, ops: seq<Op>,
                           ext: Ext, swagger: (string, Json) -> bool)
    requires forall n | n in swaggerSchemas :: RefsTo(swaggerSchemas[n], swaggerSchemas.Keys) && !AnonLike(n)
    requires var c := GraphContext(definitions, swaggerSchemas.Keys, ops);
      && NoAnonNames(c) && TwinsClear(c) && DefinitionsOk(exact, c) && OpsOk(c, ops) && OpsFit(exact, c, ops)
      && SwaggerAgrees(Side(true, exact), c, Limit(c, ext), swagger)
    requires exact ==> forall k, j :: ext(k, j, JNull)
    ensures var c := GraphContext(definitions, swaggerSchemas.Keys, ops);
      var res := RunF(c, Initial(swaggerSchemas), ops);
      var m, om := Limit(c, ext), OutLimit(ApiOf(res.reg, c.swaggerOwned, swagger, ext));
      ResultsKeep(exact, ops, res.out, m, om) && ComponentsRead(c, res.reg, om)
  {
    var c := GraphContext(definitions, swaggerSchemas.Keys, ops);
    InitialSettled(c, swaggerSchemas);
    forall m ensures TwinsAgree(c, m) { TwinsAgreeWhen(c, m); }
    forall d | d in c.universe ensures Positive(Body(c, d)) { FragmentIsPositive(exact, c, Body(c, d)); }
    UnrollingKeepsMeaning(Side(true, exact), c, swaggerSchemas, ops, ext, swagger);
  }
}
