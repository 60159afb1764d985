/** When a union keeps its values, over whole runs and with conditions on the sources only. */
module UnionRuns {
  import opened Options
  import opened Sequences
  import opened JsonSchema
  import opened OpenApi
  import opened SchemaMeaning
  import opened ComponentNames
  import opened Registry
  import opened RegistryInvariants
  import opened RegistrySafety
  import opened NullLooks
  import opened BoundedMeaning
  import opened RegistryMeaning
  import opened RegistryRuns
  import opened RunMeaning
  import opened RegistryLimits

  /** The variants that are not translated to a bare null are in the exact fragment. */
  ghost predicate OthersFit(c: Context, kids: seq<Kid>)
  {
    forall i | 0 <= i < |kids| && !NullVariant(c, kids[i].schema) :: SchemaOk(true, c, kids[i].schema)
  }

  /** Then they are translated exactly. */
  lemma {:induction false} OthersAreExact(c: Context, r: Reg, kids: seq<Kid>, m: Meaning, cm: Meaning)
    requires Setting(BOTH, c, r, m, cm) && KidsRefsIn(kids, c.universe) && OthersFit(c, kids)
    requires Linked(BOTH, KidsF(c, r, kids).reg, m, cm)
    ensures OthersExact(c, kids, KidsF(c, r, kids).out, m, cm)
  {
    if kids != [] {
      var n := |kids| - 1;
      var before := KidsF(c, r, kids[..n]);
      KidsKeep(c, r, kids[..n]);
      LastIsExact(c, before.reg, kids[n].schema, m, cm);
      OthersAreExact(c, r, kids[..n], m, cm);
      ExactMore(c, kids, before.out, ConvertF(c, before.reg, kids[n].schema).out, m, cm);
    }
  }

  ghost predicate ExactVariant(c: Context, s: Schema, o: Out, m: Meaning, cm: Meaning)
  {
    !NullVariant(c, s) ==> forall v :: Valid(s, v, m) <==> OValid(o, v, cm)
  }

  lemma LastIsExact(c: Context, r: Reg, s: Schema, m: Meaning, cm: Meaning)
    requires Setting(BOTH, c, r, m, cm) && RefsIn(s, c.universe) && (!NullVariant(c, s) ==> SchemaOk(true, c, s))
    requires Linked(BOTH, ConvertF(c, r, s).reg, m, cm)
    ensures Linked(BOTH, r, m, cm)
    ensures ExactVariant(c, s, ConvertF(c, r, s).out, m, cm)
  {
    ConvertKeeps(c, r, s);
    LinkedBefore(BOTH, r, ConvertF(c, r, s).reg, m, cm);
    if !NullVariant(c, s) {
      ConvertFaithful(BOTH, c, r, s, m, cm);
      forall v ensures Valid(s, v, m) <==> OValid(ConvertF(c, r, s).out, v, cm) {
        assert AgreesOn(BOTH, s, ConvertF(c, r, s).out, v, m, cm);
      }
    }
  }

  lemma ExactMore(c: Context, kids: seq<Kid>, outs: seq<Out>, o: Out, m: Meaning, cm: Meaning)
    requires kids != [] && OthersExact(c, kids[..|kids| - 1], outs, m, cm)
    requires ExactVariant(c, kids[|kids| - 1].schema, o, m, cm)
    ensures OthersExact(c, kids, outs + [o], m, cm)
  {
    var n := |kids| - 1;
    forall i, v: Json | 0 <= i < |kids| && !NullVariant(c, kids[i].schema)
      ensures Valid(kids[i].schema, v, m) <==> OValid((outs + [o])[i], v, cm)
    {
      if i < n { assert kids[..n][i] == kids[i]; }
    }
  }

  /** An object with annotations and, as its only assertion, this union. */
  ghost predicate UnionOf(c: Context, s: Schema, kids: seq<Kid>)
  {
    && s.Obj? && Keyed(s)
    && exists u | 0 <= u < |s.entries| ::
         s.entries[u] == Group(AnyOf, kids) && forall j | 0 <= j < |s.entries| && j != u :: Annotation(s.entries[j])
  }

  /** From any state of a run, with components read as the definitions converted to them. */
  lemma UnionKeptInFragment(c: Context, r: Reg, s: Schema, kids: seq<Kid>, m: Meaning, cm: Meaning)
    requires Setting(BOTH, c, r, m, cm) && DefinitionsKeyed(c) && HeavyConverted(c, r) && r.inlining == {}
    requires UnionOf(c, s, kids) && RefsIn(s, c.universe) && OthersFit(c, kids)
    requires Linked(BOTH, ConvertF(c, r, s).reg, m, cm)
    ensures KeepsAll(s, ConvertF(c, r, s).out, m, cm) <==> NoneLosesRest(c, kids) || OthersCover(c, kids, m)
  {
    var es := s.entries;
    var u :| 0 <= u < |es| && es[u] == Group(AnyOf, kids) && forall j | 0 <= j < |es| && j != u :: Annotation(es[j]);
    OnlyGroup(c, r, es, u);
    OthersAreExact(c, r, kids, m, cm);
    UnionKeptExactlyWhen(c, r, es, u, m, cm);
  }

  // ----- over whole runs -----

  /** The conditions on a graph and a run, the exact fragment for the definitions. */
  ghost predicate Prepared(c: Context, swaggerSchemas: map<string, Out>, ops: seq<Op>, m: Meaning, swagger: (string, Json) -> bool)
  {
    && c.swaggerOwned == swaggerSchemas.Keys && Settled(c, Initial(swaggerSchemas))
    && Registry.Closed(c) && OpsOk(c, ops) && NoAnonNames(c) && TwinsAgree(c, m)
    && DefinitionsOk(true, c) && DefinitionsKeyed(c) && (forall i | 0 <= i < |ops| :: Keyed(ops[i].schema))
    && Solves(BOTH, c, m) && SwaggerAgrees(BOTH, c, m, swagger) && forall k, j :: m.ext(k, j, JNull)
  }

  lemma ConvertedLast(c: Context, r: Reg, ops: seq<Op>, s: Schema)
    requires Registry.Closed(c) && OpsOk(c, ops) && RefsIn(s, c.universe)
    ensures OpsOk(c, ops + [Convert(s)])
    ensures var before, res := RunF(c, r, ops), RunF(c, r, ops + [Convert(s)]);
      res.reg == ConvertF(c, before.reg, s).reg && res.out[|ops|] == ConvertF(c, before.reg, s).out
  {
    var all := ops + [Convert(s)];
    assert all[..|ops|] == ops && all[|ops|] == Convert(s);
  }

  /**
    A union converted after any run: under the components' meaning at the end it loses no value exactly when no
    variant is translated to a bare null though it accepts more, or the other variants accept everything but null.
    All conditions are on the sources; what the run before converted may be outside the fragment.
  */
  lemma UnionKeptAfterRun(c: Context, swaggerSchemas: map<string, Out>, ops: seq<Op>, s: Schema, kids: seq<Kid>, m: Meaning,
                          swagger: (string, Json) -> bool)
    requires Prepared(c, swaggerSchemas, ops, m, swagger)
    requires UnionOf(c, s, kids) && RefsIn(s, c.universe) && OthersFit(c, kids)
    ensures var all := ops + [Convert(s)];
      && OpsOk(c, all)
      && var res := RunF(c, Initial(swaggerSchemas), all);
         var cm := ComponentMeaning(c, res.reg, all, res.out, m, swagger);
         KeepsAll(s, res.out[|ops|], m, cm) <==> NoneLosesRest(c, kids) || OthersCover(c, kids, m)
  {
    var r, all := Initial(swaggerSchemas), ops + [Convert(s)];
    var before, res := RunF(c, r, ops), RunF(c, r, all);
    ConvertedLast(c, r, ops, s);
    RunClosed(c, r, ops);
    RunLooks(c, r, ops);
    RunClosed(c, r, all);
    RunApart(c, r, all);
    ComponentsLinked(BOTH, c, res.reg, all, res.out, m, swagger);
    UnionKeptInFragment(c, before.reg, s, kids, m, ComponentMeaning(c, res.reg, all, res.out, m, swagger));
  }
}
