/**
  Where the translation does not keep what it seems to promise: inputs that show it, and the exact
  condition where there is one.
*/
module RegistryLimits {
  import opened Options
  import opened JsonSchema
  import opened OpenApi
  import opened SchemaRewrite
  import opened SchemaMeaning
  import opened OutputShape
  import opened ComponentNames
  import opened Fingerprint
  import opened Registry
  import opened RegistryInvariants
  import opened BoundedMeaning
  import opened NullLooks
  import opened RegistryRuns

  // ----- a variant that looks like a bare null -----

  ghost predicate SomeValid(kids: seq<Kid>, v: Json, m: Meaning)
  {
    exists i | 0 <= i < |kids| :: Valid(kids[i].schema, v, m)
  }

  /** A variant whose output does not look like a bare null is translated exactly. */
  ghost predicate VariantsAgree(kids: seq<Kid>, outs: seq<Out>, m: Meaning, cm: Meaning)
  {
    && |kids| == |outs|
    && forall i, v | 0 <= i < |kids| && !IsNullSchema(outs[i]) :: Valid(kids[i].schema, v, m) <==> OValid(outs[i], v, cm)
  }

  /** The rewritten union accepts whatever one of the source variants accepts. */
  ghost predicate KeepsUnion(o: Out, kids: seq<Kid>, m: Meaning, cm: Meaning)
  {
    forall v | SomeValid(kids, v, m) :: OValid(o, v, cm)
  }

  /** Some variant that does not look like a bare null accepts the value. */
  ghost predicate Covered(kids: seq<Kid>, outs: seq<Out>, v: Json, m: Meaning)
    requires |kids| == |outs|
  {
    exists j | 0 <= j < |kids| :: !IsNullSchema(outs[j]) && Valid(kids[j].schema, v, m)
  }

  /** A variant that looks like a bare null accepts nothing but null, unless others accept it too. */
  ghost predicate NullLooksCovered(kids: seq<Kid>, outs: seq<Out>, m: Meaning)
    requires |kids| == |outs|
  {
    forall i, v | 0 <= i < |kids| && IsNullSchema(outs[i]) && Valid(kids[i].schema, v, m) && !v.JNull? :: Covered(kids, outs, v, m)
  }

  /**
    The null rewrite of an `anyOf` loses no value exactly when whatever is accepted by a variant whose
    output looks like a bare null, null aside, is accepted by another variant: `{nullable: true}` may also
    be the translation of a schema that accepts anything.
  */
  lemma AnyOfSoundExactlyWhen(d: Out, kids: seq<Kid>, outs: seq<Out>, m: Meaning, cm: Meaning)
    requires d.ONode? && Core(d) == EMPTY.(anyOf := Variants(outs)) && VariantsAgree(kids, outs, m, cm)
    ensures KeepsUnion(Finish(d), kids, m, cm) <==> NullLooksCovered(kids, outs, m)
  {
    forall v
      ensures OValid(Finish(d), v, cm) <==> (HasNull(outs) && v.JNull?) || Covered(kids, outs, v, m)
    {
      AnyOfMeaning(d, outs, v, cm);
      CoveredIsAccepted(kids, outs, v, m, cm);
    }
    if KeepsUnion(Finish(d), kids, m, cm) {
      forall i, v | 0 <= i < |kids| && IsNullSchema(outs[i]) && Valid(kids[i].schema, v, m) && !v.JNull?
        ensures Covered(kids, outs, v, m)
      {
        assert SomeValid(kids, v, m);
      }
    }
    if NullLooksCovered(kids, outs, m) {
      forall v | SomeValid(kids, v, m) ensures OValid(Finish(d), v, cm) {
        var i :| 0 <= i < |kids| && Valid(kids[i].schema, v, m);
        if IsNullSchema(outs[i]) { assert HasNull(outs); } else { assert Covered(kids, outs, v, m); }
      }
    }
  }

  lemma CoveredIsAccepted(kids: seq<Kid>, outs: seq<Out>, v: Json, m: Meaning, cm: Meaning)
    requires VariantsAgree(kids, outs, m, cm)
    ensures Covered(kids, outs, v, m) <==> NonNullAccepts(outs, v, cm)
  {
    if Covered(kids, outs, v, m) {
      var j :| 0 <= j < |kids| && !IsNullSchema(outs[j]) && Valid(kids[j].schema, v, m);
      assert OValid(outs[j], v, cm);
    }
    if NonNullAccepts(outs, v, cm) {
      var j :| 0 <= j < |outs| && !IsNullSchema(outs[j]) && OValid(outs[j], v, cm);
      assert Valid(kids[j].schema, v, m);
    }
  }

  // ----- the same, read off the source -----

  /** Of a schema of one of the two kinds: it accepts whatever is not null. Otherwise it accepts nothing but null. */
  predicate AcceptsRest(c: Context, n: nat, s: Schema)
    decreases n, s
  {
    match s
    case Always(b) => b
    case Ref(Some(d)) => n > 0 && AcceptsRest(c, n - 1, Body(c, d))
    case Obj(es) =>
      && !BareNullEntries(es)
      && forall u | 0 <= u < |es| && UnionAlone(es, u) :: KidsAcceptRest(c, n, es[u].kw, es[u].kids)
    case _ => true
  }

  predicate KidsAcceptRest(c: Context, n: nat, kw: GroupKw, kids: seq<Kid>)
    decreases n, kids
  {
    exists i | 0 <= i < |kids| :: AcceptsRest(c, n, kids[i].schema)
      && (kw.OneOf? ==> forall j | 0 <= j < |kids| && j != i :: !AcceptsRest(c, n, kids[j].schema))
  }

  lemma {:induction false} TypedNull(es: seq<Entry>, names: set<string>, v: Json, m: Meaning)
    requires TypeOf(es) == One(TNull) && forall i | 0 <= i < |es| :: EntryOk(es[i], names, v, m)
    ensures v.JNull?
  {
    var n := |es| - 1;
    if es[n].Leaf? && es[n].leaf.Type? {
      assert EntryOk(es[n], names, v, m);
    } else {
      TypedNull(es[..n], names, v, m);
    }
  }

  /** The value passes the union of an object with nothing else. */
  lemma AloneValid(es: seq<Entry>, u: nat, v: Json, m: Meaning)
    requires UnionAlone(es, u)
    ensures Valid(Obj(es), v, m) <==> EntryOk(es[u], PropNames(es), v, m)
  {
    forall j | 0 <= j < |es| && j != u ensures EntryOk(es[j], PropNames(es), v, m) { assert Ignored(es[j]); }
  }

  /** Schemas of the two kinds treat all values but null alike. */
  lemma {:induction false} RestAlike(c: Context, n: nat, s: Schema, v: Json, m: Meaning)
    requires Light(c, n, s) && !v.JNull? && Registry.Closed(c) && RefsIn(s, c.universe) && Solves(BOTH, c, m)
    ensures Valid(s, v, m) <==> AcceptsRest(c, n, s)
    decreases n, s
  {
    match s
    case Ref(Some(d)) =>
      BodyRefsIn(c, d);
      RestAlike(c, n - 1, Body(c, d), v, m);
    case Obj(es) =>
      if BareNullEntries(es) {
        if Valid(s, v, m) { TypedNull(es, PropNames(es), v, m); }
      } else if Vague(s) {
        assert forall i | 0 <= i < |es| :: Ignored(es[i]);
      } else {
        UnionAlike(c, n, es, v, m);
      }
    case _ =>
  }

  lemma {:induction false} UnionAlike(c: Context, n: nat, es: seq<Entry>, v: Json, m: Meaning)
    requires Nullish(c, n, Obj(es)) && !BareNullEntries(es) && !v.JNull?
    requires Registry.Closed(c) && RefsIn(Obj(es), c.universe) && Solves(BOTH, c, m)
    ensures Valid(Obj(es), v, m) <==> AcceptsRest(c, n, Obj(es))
    decreases n, es
  {
    var u :| 0 <= u < |es| && UnionAlone(es, u) && OneVague(c, n, es[u].kids);
    assert EntriesRefsIn(es, c.universe);
    KidsAlike(c, n, es[u].kids, v, m);
    AloneValid(es, u, v, m);
    UnionRest(c, n, es[u].kw, es[u].kids, PropNames(es), v, m);
    forall w | 0 <= w < |es| && UnionAlone(es, w) ensures w == u { assert !Ignored(es[u]); }
  }

  lemma {:induction false} KidsAlike(c: Context, n: nat, kids: seq<Kid>, v: Json, m: Meaning)
    requires OneVague(c, n, kids) && !v.JNull?
    requires Registry.Closed(c) && KidsRefsIn(kids, c.universe) && Solves(BOTH, c, m)
    ensures forall i | 0 <= i < |kids| :: Valid(kids[i].schema, v, m) <==> AcceptsRest(c, n, kids[i].schema)
    decreases n, kids
  {
    forall i | 0 <= i < |kids| ensures Valid(kids[i].schema, v, m) <==> AcceptsRest(c, n, kids[i].schema) {
      RestAlike(c, n, kids[i].schema, v, m);
    }
  }

  /** Some alternative holds; the only one, if so asked. */
  predicate Chosen(only: bool, holds: seq<bool>)
  {
    exists i | 0 <= i < |holds| :: holds[i] && (only ==> forall j | 0 <= j < |holds| && j != i :: !holds[j])
  }

  ghost predicate Truths(kids: seq<Kid>, holds: seq<bool>, v: Json, m: Meaning)
  {
    |holds| == |kids| && forall i | 0 <= i < |kids| :: holds[i] == Valid(kids[i].schema, v, m)
  }

  lemma UnionChosen(kw: GroupKw, kids: seq<Kid>, holds: seq<bool>, names: set<string>, v: Json, m: Meaning)
    requires (kw.AnyOf? || kw.OneOf?) && Truths(kids, holds, v, m)
    ensures EntryOk(Group(kw, kids), names, v, m) <==> Chosen(kw.OneOf?, holds)
  {
    if EntryOk(Group(kw, kids), names, v, m) { ChosenFrom(kw, kids, holds, names, v, m); }
    if Chosen(kw.OneOf?, holds) { ChosenAccepts(kw, kids, holds, names, v, m); }
  }

  lemma ChosenFrom(kw: GroupKw, kids: seq<Kid>, holds: seq<bool>, names: set<string>, v: Json, m: Meaning)
    requires (kw.AnyOf? || kw.OneOf?) && Truths(kids, holds, v, m) && EntryOk(Group(kw, kids), names, v, m)
    ensures Chosen(kw.OneOf?, holds)
  {
    if kw.AnyOf? { AnyOfChosen(kids, holds, names, v, m); } else { OneOfChosen(kids, holds, names, v, m); }
  }

  lemma AnyOfChosen(kids: seq<Kid>, holds: seq<bool>, names: set<string>, v: Json, m: Meaning)
    requires Truths(kids, holds, v, m) && EntryOk(Group(AnyOf, kids), names, v, m)
    ensures Chosen(false, holds)
  {
    var i :| 0 <= i < |kids| && Valid(kids[i].schema, v, m);
    assert holds[i];
  }

  lemma OneOfChosen(kids: seq<Kid>, holds: seq<bool>, names: set<string>, v: Json, m: Meaning)
    requires Truths(kids, holds, v, m) && EntryOk(Group(OneOf, kids), names, v, m)
    ensures Chosen(true, holds)
  {
    var i :| 0 <= i < |kids| && Valid(kids[i].schema, v, m)
             && forall j | 0 <= j < |kids| && j != i :: !Valid(kids[j].schema, v, m);
    assert holds[i];
    forall j | 0 <= j < |holds| && j != i ensures !holds[j] { assert !Valid(kids[j].schema, v, m); }
  }

  lemma ChosenAccepts(kw: GroupKw, kids: seq<Kid>, holds: seq<bool>, names: set<string>, v: Json, m: Meaning)
    requires (kw.AnyOf? || kw.OneOf?) && Truths(kids, holds, v, m) && Chosen(kw.OneOf?, holds)
    ensures EntryOk(Group(kw, kids), names, v, m)
  {
    var i :| 0 <= i < |holds| && holds[i] && (kw.OneOf? ==> forall j | 0 <= j < |holds| && j != i :: !holds[j]);
    assert Valid(kids[i].schema, v, m);
    forall j | kw.OneOf? && 0 <= j < |kids| && j != i ensures !Valid(kids[j].schema, v, m) { assert !holds[j]; }
  }

  lemma RestChosen(c: Context, n: nat, kw: GroupKw, kids: seq<Kid>, holds: seq<bool>)
    requires |holds| == |kids| && forall i | 0 <= i < |kids| :: holds[i] == AcceptsRest(c, n, kids[i].schema)
    ensures KidsAcceptRest(c, n, kw, kids) <==> Chosen(kw.OneOf?, holds)
  {
    if KidsAcceptRest(c, n, kw, kids) {
      var i :| 0 <= i < |kids| && AcceptsRest(c, n, kids[i].schema)
               && (kw.OneOf? ==> forall j | 0 <= j < |kids| && j != i :: !AcceptsRest(c, n, kids[j].schema));
      assert holds[i];
    }
  }

  lemma UnionRest(c: Context, n: nat, kw: GroupKw, kids: seq<Kid>, names: set<string>, v: Json, m: Meaning)
    requires kw.AnyOf? || kw.OneOf?
    requires forall i | 0 <= i < |kids| :: Valid(kids[i].schema, v, m) <==> AcceptsRest(c, n, kids[i].schema)
    ensures EntryOk(Group(kw, kids), names, v, m) <==> KidsAcceptRest(c, n, kw, kids)
  {
    var holds := seq(|kids|, i requires 0 <= i < |kids| => AcceptsRest(c, n, kids[i].schema));
    UnionChosen(kw, kids, holds, names, v, m);
    RestChosen(c, n, kw, kids, holds);
  }

  /** Translated to a bare null, but accepts more: all values but null. */
  ghost predicate LosesRest(c: Context, s: Schema)
  {
    exists n: nat :: Nullish(c, n, s) && AcceptsRest(c, n, s)
  }

  lemma LosesRestExactly(c: Context, s: Schema, v: Json, m: Meaning)
    requires NullVariant(c, s) && !v.JNull? && Registry.Closed(c) && RefsIn(s, c.universe) && Solves(BOTH, c, m)
    ensures Valid(s, v, m) <==> LosesRest(c, s)
  {
    var n: nat :| Nullish(c, n, s);
    RestAlike(c, n, s, v, m);
    if LosesRest(c, s) {
      var k: nat :| Nullish(c, k, s) && AcceptsRest(c, k, s);
      RestAlike(c, k, s, v, m);
    }
  }

  /** The variants that are not translated to a bare null are translated exactly. */
  ghost predicate OthersExact(c: Context, kids: seq<Kid>, outs: seq<Out>, m: Meaning, cm: Meaning)
  {
    && |kids| == |outs|
    && forall i, v | 0 <= i < |kids| && !NullVariant(c, kids[i].schema) :: Valid(kids[i].schema, v, m) <==> OValid(outs[i], v, cm)
  }

  /** They accept, together, every value but null. */
  ghost predicate OthersCover(c: Context, kids: seq<Kid>, m: Meaning)
  {
    forall v: Json | !v.JNull? :: exists j | 0 <= j < |kids| :: !NullVariant(c, kids[j].schema) && Valid(kids[j].schema, v, m)
  }

  ghost predicate NoneLosesRest(c: Context, kids: seq<Kid>)
  {
    forall i | 0 <= i < |kids| :: !LosesRest(c, kids[i].schema)
  }

  /** Every value the source object accepts is accepted by the output. */
  ghost predicate KeepsAll(s: Schema, o: Out, m: Meaning, cm: Meaning)
  {
    forall v | Valid(s, v, m) :: OValid(o, v, cm)
  }

  lemma NullLooksInSource(c: Context, kids: seq<Kid>, outs: seq<Out>, m: Meaning)
    requires Registry.Closed(c) && KidsRefsIn(kids, c.universe) && Solves(BOTH, c, m) && KidsLook(c, kids, outs)
    ensures NullLooksCovered(kids, outs, m) <==> NoneLosesRest(c, kids) || OthersCover(c, kids, m)
  {
    forall i | 0 <= i < |kids| ensures IsNullSchema(outs[i]) <==> NullVariant(c, kids[i].schema) {
      assert Looks(c, kids[i].schema, outs[i]);
    }
    forall i, v: Json | 0 <= i < |kids| && NullVariant(c, kids[i].schema) && !v.JNull?
      ensures Valid(kids[i].schema, v, m) <==> LosesRest(c, kids[i].schema)
    {
      LosesRestExactly(c, kids[i].schema, v, m);
    }
    CoveredInSource(c, kids, outs, m);
  }

  lemma CoveredInSource(c: Context, kids: seq<Kid>, outs: seq<Out>, m: Meaning)
    requires |kids| == |outs| && forall i | 0 <= i < |kids| :: IsNullSchema(outs[i]) <==> NullVariant(c, kids[i].schema)
    requires forall i, v: Json | 0 <= i < |kids| && NullVariant(c, kids[i].schema) && !v.JNull? ::
               Valid(kids[i].schema, v, m) <==> LosesRest(c, kids[i].schema)
    ensures NullLooksCovered(kids, outs, m) <==> NoneLosesRest(c, kids) || OthersCover(c, kids, m)
  {
    if i :| 0 <= i < |kids| && LosesRest(c, kids[i].schema) {
      assert NullVariant(c, kids[i].schema);
      if NullLooksCovered(kids, outs, m) {
        forall v: Json | !v.JNull?
          ensures exists j | 0 <= j < |kids| :: !NullVariant(c, kids[j].schema) && Valid(kids[j].schema, v, m)
        {
          assert Covered(kids, outs, v, m);
        }
      }
      if OthersCover(c, kids, m) {
        forall v: Json | !v.JNull? ensures Covered(kids, outs, v, m) {
          var j :| 0 <= j < |kids| && !NullVariant(c, kids[j].schema) && Valid(kids[j].schema, v, m);
        }
      }
    }
  }

  lemma {:induction false} LeavesKeep(c: Context, r: Reg, es: seq<Entry>)
    requires Registry.Closed(c) && EntriesRefsIn(es, c.universe) && forall i | 0 <= i < |es| :: es[i].Leaf?
    ensures EntriesF(c, r, es).reg == r
  {
    if es != [] { LeavesKeep(c, r, es[..|es| - 1]); }
  }

  /** The only keyword with subschemas is converted from the state the object is met in. */
  lemma {:induction false} OnlyGroup(c: Context, r: Reg, es: seq<Entry>, u: nat)
    requires Registry.Closed(c) && EntriesRefsIn(es, c.universe) && u < |es| && es[u].Group?
    requires forall j | 0 <= j < |es| && j != u :: es[j].Leaf?
    ensures KidsRefsIn(es[u].kids, c.universe) && EntriesF(c, r, es).out[u] == KidsF(c, r, es[u].kids).out
    ensures EntriesF(c, r, es).reg == KidsF(c, r, es[u].kids).reg
  {
    var n := |es| - 1;
    if u == n {
      LeavesKeep(c, r, es[..n]);
    } else {
      OnlyGroup(c, r, es[..n], u);
    }
  }

  /**
    Read off the source: a union (beside annotations) loses no value exactly when no variant is translated to a
    bare null though it accepts more, or the variants that are not accept everything but null by themselves.
  */
  lemma UnionKeptExactlyWhen(c: Context, r: Reg, es: seq<Entry>, u: nat, m: Meaning, cm: Meaning)
    requires Registry.Closed(c) && RefsIn(Obj(es), c.universe) && EntriesRefsIn(es, c.universe)
    requires DefinitionsKeyed(c) && Keyed(Obj(es)) && HeavyConverted(c, r) && r.inlining == {} && Solves(BOTH, c, m)
    requires u < |es| && es[u].Group? && es[u].kw.AnyOf? && forall j | 0 <= j < |es| && j != u :: Annotation(es[j])
    requires KidsRefsIn(es[u].kids, c.universe) && OthersExact(c, es[u].kids, KidsF(c, r, es[u].kids).out, m, cm)
    ensures KeepsAll(Obj(es), ConvertF(c, r, Obj(es)).out, m, cm)
            <==> NoneLosesRest(c, es[u].kids) || OthersCover(c, es[u].kids, m)
  {
    var kids, outss := es[u].kids, EntriesF(c, r, es).out;
    OnlyGroup(c, r, es, u);
    KidsLooks(c, r, kids);
    NullLooksInSource(c, kids, outss[u], m);
    UnionKeptFrom(c, es, outss, u, m, cm);
  }

  lemma UnionKeptFrom(c: Context, es: seq<Entry>, outss: seq<seq<Out>>, u: nat, m: Meaning, cm: Meaning)
    requires Fits(es, outss) && u < |es| && es[u].Group? && es[u].kw.AnyOf?
    requires forall j | 0 <= j < |es| && j != u :: Annotation(es[j])
    requires KidsLook(c, es[u].kids, outss[u]) && OthersExact(c, es[u].kids, outss[u], m, cm)
    ensures KeepsAll(Obj(es), Finish(Draft(es, outss)), m, cm) <==> NullLooksCovered(es[u].kids, outss[u], m)
  {
    var d, kids, outs := Draft(es, outss), es[u].kids, outss[u];
    DraftCombinator(es, outss, u);
    forall i, v | 0 <= i < |kids| && !IsNullSchema(outs[i]) ensures Valid(kids[i].schema, v, m) <==> OValid(outs[i], v, cm) {
      assert Looks(c, kids[i].schema, outs[i]);
    }
    AnyOfSoundExactlyWhen(d, kids, outs, m, cm);
    forall v ensures Valid(Obj(es), v, m) <==> SomeValid(kids, v, m) { AnnotatedUnionValid(es, u, v, m); }
  }

  lemma AnnotatedUnionValid(es: seq<Entry>, u: nat, v: Json, m: Meaning)
    requires u < |es| && es[u].Group? && es[u].kw.AnyOf? && forall j | 0 <= j < |es| && j != u :: Annotation(es[j])
    ensures Valid(Obj(es), v, m) <==> SomeValid(es[u].kids, v, m)
  {
    forall j | 0 <= j < |es| && j != u ensures EntryOk(es[j], PropNames(es), v, m) { assert Annotation(es[j]); }
    assert Valid(Obj(es), v, m) <==> EntryOk(es[u], PropNames(es), v, m);
  }

  // ----- steps of a conversion -----

  lemma ConvertGroup(c: Context, r: Reg, kw: GroupKw, kids: seq<Kid>)
    requires Registry.Closed(c) && RefsIn(Obj([Group(kw, kids)]), c.universe) && KidsRefsIn(kids, c.universe)
    ensures var res := KidsF(c, r, kids);
      ConvertF(c, r, Obj([Group(kw, kids)])) == Result(Finish(Assign(EMPTY, Group(kw, kids), res.out)), res.reg)
  {
    var es := [Group(kw, kids)];
    assert es[..0] == [];
    assert EntriesF(c, r, es[..0]) == Result([], r);
    var res := KidsF(c, r, kids);
    assert [] + [res.out] == [res.out];
    assert EntriesF(c, r, es) == Result([res.out], res.reg);
    assert [res.out][..0] == [];
    assert Draft(es, [res.out]) == Assign(Draft([], []), es[0], res.out);
  }

  lemma ConvertType(c: Context, r: Reg, t: Type)
    requires Registry.Closed(c) && !t.TNull?
    ensures ConvertF(c, r, Obj([Leaf(Type(One(t)))])) == Result(EMPTY.(typ := One(t)), r)
  {
    var es := [Leaf(Type(One(t)))];
    assert es[..0] == [];
    assert EntriesF(c, r, es[..0]) == Result([], r);
    var none: seq<seq<Out>> := [[]];
    assert [] + none == none;
    assert EntriesF(c, r, es) == Result(none, r);
    assert none[..0] == [];
    assert Draft(es, none) == Assign(Draft([], []), es[0], []);
  }

  lemma ConvertTwo(c: Context, r: Reg, a: Schema, b: Schema)
    requires Registry.Closed(c) && RefsIn(a, c.universe) && RefsIn(b, c.universe)
    requires KidsRefsIn([Kid("", a), Kid("", b)], c.universe)
    ensures var first := ConvertF(c, r, a);
      var second := ConvertF(c, first.reg, b);
      KidsF(c, r, [Kid("", a), Kid("", b)]) == Result([first.out, second.out], second.reg)
  {
    var kids := [Kid("", a), Kid("", b)];
    assert kids[..1] == [Kid("", a)] && kids[..1][..0] == [];
    assert KidsF(c, r, kids[..1][..0]) == Result([], r);
    var first := ConvertF(c, r, a);
    var second := ConvertF(c, first.reg, b);
    assert [] + [first.out] == [first.out] && [first.out] + [second.out] == [first.out, second.out];
    assert KidsF(c, r, kids[..1]) == Result([ConvertF(c, r, a).out], ConvertF(c, r, a).reg);
  }

  // ----- an unconstrained variant beside null -----

  const NULL_SCHEMA := Obj([Leaf(Type(One(TNull)))])
  const STRING_SCHEMA := Obj([Leaf(Type(One(TString)))])
  const EMPTY_SCHEMA := Obj([])

  /** "Anything or null". */
  function AnythingOrNull(): Schema
  {
    Obj([Group(AnyOf, [Kid("", EMPTY_SCHEMA), Kid("", NULL_SCHEMA)])])
  }

  /** "(Anything or null) or a string". */
  function VagueUnion(): Schema
  {
    Obj([Group(AnyOf, [Kid("", AnythingOrNull()), Kid("", STRING_SCHEMA)])])
  }

  lemma ConvertNull(c: Context, r: Reg)
    requires Registry.Closed(c)
    ensures ConvertF(c, r, NULL_SCHEMA) == Result(EMPTY.(nullable := true), r)
    ensures ConvertF(c, r, EMPTY_SCHEMA) == Result(EMPTY, r)
  {
    var es := [Leaf(Type(One(TNull)))];
    assert es[..0] == [];
    var none: seq<seq<Out>> := [[]];
    assert [] + none == none;
    assert EntriesF(c, r, es[..0]) == Result([], r);
    assert EntriesF(c, r, es) == Result(none, r);
    assert none[..0] == [];
    assert Draft(es, none) == Assign(Draft([], []), es[0], []);
    assert Finish(EMPTY.(typ := One(TNull))) == EMPTY.(nullable := true);
    assert EntriesF(c, r, []) == Result([], r);
    assert Finish(EMPTY) == EMPTY;
  }

  lemma TwoVariants(a: Out, b: Out)
    requires IsNullSchema(b) && !IsNullSchema(a)
    ensures NonNull([a, b]) == [a] && NonNull([b, a]) == [a]
  {
    assert [a, b][..1] == [a] && [b, a][..1] == [b] && [a][..0] == [] && [b][..0] == [];
    assert NonNull([]) == [];
    assert NonNull([a]) == [] + [a] && NonNull([b]) == [];
  }

  lemma VagueUnionValid(v: Json, m: Meaning)
    ensures Valid(VagueUnion(), v, m)
  {
    var inner := [Kid("", EMPTY_SCHEMA), Kid("", NULL_SCHEMA)];
    var outer := [Kid("", AnythingOrNull()), Kid("", STRING_SCHEMA)];
    assert Valid(EMPTY_SCHEMA, v, m);
    OneEntryValid(Group(AnyOf, inner), v, m);
    assert Valid(inner[0].schema, v, m);
    OneEntryValid(Group(AnyOf, outer), v, m);
    assert Valid(outer[0].schema, v, m);
  }

  lemma ConvertAnythingOrNull(c: Context, r: Reg)
    requires Registry.Closed(c)
    ensures RefsIn(AnythingOrNull(), c.universe)
    ensures ConvertF(c, r, AnythingOrNull()) == Result(EMPTY.(nullable := true), r)
  {
    var inner := [Kid("", EMPTY_SCHEMA), Kid("", NULL_SCHEMA)];
    assert KidsRefsIn(inner, c.universe);
    ConvertNull(c, r);
    ConvertTwo(c, r, EMPTY_SCHEMA, NULL_SCHEMA);
    ConvertGroup(c, r, AnyOf, inner);
    TwoVariants(EMPTY, EMPTY.(nullable := true));
  }

  lemma ConvertVagueUnion(c: Context, r: Reg)
    requires Registry.Closed(c)
    ensures RefsIn(VagueUnion(), c.universe)
    ensures ConvertF(c, r, VagueUnion()).out == EMPTY.(typ := One(TString), nullable := true)
  {
    var outer := [Kid("", AnythingOrNull()), Kid("", STRING_SCHEMA)];
    ConvertVagueKids(c, r);
    ConvertGroup(c, r, AnyOf, outer);
    TwoVariants(EMPTY.(typ := One(TString)), EMPTY.(nullable := true));
  }

  lemma ConvertVagueKids(c: Context, r: Reg)
    requires Registry.Closed(c)
    ensures KidsRefsIn([Kid("", AnythingOrNull()), Kid("", STRING_SCHEMA)], c.universe)
    ensures KidsF(c, r, [Kid("", AnythingOrNull()), Kid("", STRING_SCHEMA)])
            == Result([EMPTY.(nullable := true), EMPTY.(typ := One(TString))], r)
  {
    ConvertAnythingOrNull(c, r);
    ConvertType(c, r, TString);
    ConvertTwo(c, r, AnythingOrNull(), STRING_SCHEMA);
  }

  /** The output of `VagueUnion` is a nullable string: the source accepts every number, the output none. */
  lemma VagueUnionRejectsNumbers(c: Context, r: Reg, x: real, m: Meaning, cm: Meaning)
    requires Registry.Closed(c)
    ensures RefsIn(VagueUnion(), c.universe)
    ensures Valid(VagueUnion(), JNum(x), m)
    ensures !OValid(ConvertF(c, r, VagueUnion()).out, JNum(x), cm)
  {
    VagueUnionValid(JNum(x), m);
    ConvertVagueUnion(c, r);
    NullableStringRejects(x, cm);
  }

  lemma NullableStringRejects(x: real, cm: Meaning)
    ensures !OValid(EMPTY.(typ := One(TString), nullable := true), JNum(x), cm)
  {
  }

  lemma OneEntryValid(e: Entry, v: Json, m: Meaning)
    ensures Valid(Obj([e]), v, m) <==> EntryOk(e, PropNames([e]), v, m)
  {
    assert [e][0] == e;
  }

  // ----- a type that OpenAPI 3.0 does not know -----

  /** `type: "null"` beside "a string or null". */
  function NullBesideUnion(): Schema
  {
    Obj([Leaf(Type(One(TNull))), Group(AnyOf, StringOrNull())])
  }

  function StringOrNull(): seq<Kid>
  {
    [Kid("", STRING_SCHEMA), Kid("", NULL_SCHEMA)]
  }

  /** The early return for the one variant left copies `type: "null"` into the output. */
  lemma NullTypeLeft(c: Context, r: Reg)
    requires Registry.Closed(c)
    ensures RefsIn(NullBesideUnion(), c.universe)
    ensures ConvertF(c, r, NullBesideUnion()).out.ONode? && ConvertF(c, r, NullBesideUnion()).out.typ == One(TNull)
    ensures !Clean(ConvertF(c, r, NullBesideUnion()).out)
  {
    ConvertStringOrNull(c, r);
    ConvertTypeAnd(c, r, TNull, AnyOf, StringOrNull(), [EMPTY.(typ := One(TString)), EMPTY.(nullable := true)]);
    TwoVariants(EMPTY.(typ := One(TString)), EMPTY.(nullable := true));
  }

  lemma ConvertStringOrNull(c: Context, r: Reg)
    requires Registry.Closed(c)
    ensures KidsRefsIn(StringOrNull(), c.universe)
    ensures KidsF(c, r, StringOrNull()) == Result([EMPTY.(typ := One(TString)), EMPTY.(nullable := true)], r)
  {
    ConvertType(c, r, TString);
    ConvertNull(c, r);
    ConvertTwo(c, r, STRING_SCHEMA, NULL_SCHEMA);
  }

  /** An object with a type and one keyword with subschemas that leave the state as it is. */
  lemma ConvertTypeAnd(c: Context, r: Reg, t: Type, kw: GroupKw, kids: seq<Kid>, outs: seq<Out>)
    requires Registry.Closed(c) && KidsRefsIn(kids, c.universe) && KidsF(c, r, kids) == Result(outs, r)
    ensures RefsIn(Obj([Leaf(Type(One(t))), Group(kw, kids)]), c.universe)
    ensures |outs| == |kids|
    ensures ConvertF(c, r, Obj([Leaf(Type(One(t))), Group(kw, kids)]))
            == Result(Finish(Assign(EMPTY.(typ := One(t)), Group(kw, kids), outs)), r)
  {
    var a, b := Leaf(Type(One(t))), Group(kw, kids);
    TypeAndEntries(c, r, t, kw, kids, outs);
    var none: seq<seq<Out>> := [[]];
    assert [[], outs][..1] == none && none[..0] == [] && [a, b][..1] == [a] && [a][..0] == [];
    assert Draft([a], none) == Assign(Draft([], []), a, []);
    assert Draft([a, b], [[], outs]) == Assign(Draft([a], none), b, outs);
  }

  lemma TypeAndEntries(c: Context, r: Reg, t: Type, kw: GroupKw, kids: seq<Kid>, outs: seq<Out>)
    requires Registry.Closed(c) && KidsRefsIn(kids, c.universe) && KidsF(c, r, kids) == Result(outs, r)
    ensures EntriesRefsIn([Leaf(Type(One(t))), Group(kw, kids)], c.universe)
    ensures EntriesF(c, r, [Leaf(Type(One(t))), Group(kw, kids)]) == Result([[], outs], r)
  {
    var a, b := Leaf(Type(One(t))), Group(kw, kids);
    var none: seq<seq<Out>> := [[]];
    assert [a, b][..1] == [a] && [a][..0] == [];
    assert EntriesF(c, r, []) == Result([], r);
    assert [] + none == none;
    assert EntriesF(c, r, [a]) == Result(none, r);
    assert none + [outs] == [[], outs];
  }

  // ----- an anonymous component over a named one -----

  /** An anonymous recursive definition, which also refers to a definition named `Anonymous1`. */
  const LOOP := "Loop<>"
  const FIRST := "Anonymous1"

  function LoopBody(): Schema
  {
    Obj([Group(AllOf, LoopKids())])
  }

  function Clash(): Context
  {
    Context(map[LOOP := LoopBody(), FIRST := STRING_SCHEMA], {}, {LOOP, FIRST})
  }

  lemma ClashNames()
    ensures ComponentNameFor(LOOP).None? && ComponentNameFor(FIRST) == Some(FIRST)
    ensures !IsAnyJson(LOOP) && !IsAnyJson(FIRST)
    ensures AnonymousName(1) == FIRST && LOOP != FIRST
    ensures Registry.Closed(Clash())
  {
    NoDots(LOOP);
    NoDots(FIRST);
    assert !IdentifierStart('<') && !IsDigit('<') && LOOP[4] == '<';
    assert Decimal(1) == "1";
    LoopRefs();
  }

  lemma {:induction false} NoDots(s: string)
    requires forall i | 0 <= i < |s| :: s[i] != '.'
    ensures LastSegment(s) == s
  {
    if s != [] {
      NoDots(s[..|s| - 1]);
      assert s == s[..|s| - 1] + [s[|s| - 1]];
    }
  }

  /** Resolving `Anonymous1` while nothing of that name is stored. */
  lemma ResolveFirst(r: Reg)
    requires FIRST !in r.converted && FIRST !in r.schemas && r.byFingerprint == map[]
    ensures Registry.Closed(Clash())
    ensures var res := ResolveF(Clash(), r, FIRST);
      && res.out == ORef(FIRST)
      && res.reg.schemas == r.schemas[FIRST := EMPTY.(typ := One(TString))]
      && res.reg.converted == r.converted[FIRST := ORef(FIRST)]
  {
    ClashNames();
    var p := PlanFor(Clash(), r, FIRST);
    assert p.Component? && p.name == FIRST;
    ConvertType(Clash(), p.start, TString);
  }

  function LoopOut(): Out
  {
    EMPTY.(allOf := Variants([ORef(FIRST), ORef(FIRST)]))
  }

  function LoopKids(): seq<Kid>
  {
    [Kid("", Ref(Some(LOOP))), Kid("", Ref(Some(FIRST)))]
  }

  lemma LoopRefs()
    ensures KidsRefsIn(LoopKids(), Clash().universe) && RefsIn(LoopBody(), Clash().universe)
  {
  }

  /** An `allOf` of two references, resolved one after the other. */
  lemma ConvertTwoRefs(c: Context, r: Reg, a: string, b: string, x: Result<Out>, y: Result<Out>)
    requires Registry.Closed(c) && a in c.universe && b in c.universe
    requires x == ResolveF(c, r, a) && y == ResolveF(c, x.reg, b) && x.out.ORef? && y.out.ORef?
    requires KidsRefsIn([Kid("", Ref(Some(a))), Kid("", Ref(Some(b)))], c.universe)
    requires RefsIn(Obj([Group(AllOf, [Kid("", Ref(Some(a))), Kid("", Ref(Some(b)))])]), c.universe)
    ensures ConvertF(c, r, Obj([Group(AllOf, [Kid("", Ref(Some(a))), Kid("", Ref(Some(b)))])])) ==
            Result(EMPTY.(allOf := Variants([x.out, y.out])), y.reg)
  {
    ConvertTwo(c, r, Ref(Some(a)), Ref(Some(b)));
    ConvertRefKids(c, r, [Kid("", Ref(Some(a))), Kid("", Ref(Some(b)))], [x.out, y.out], y.reg);
  }

  lemma ConvertRefKids(c: Context, r: Reg, kids: seq<Kid>, outs: seq<Out>, last: Reg)
    requires Registry.Closed(c) && KidsRefsIn(kids, c.universe) && RefsIn(Obj([Group(AllOf, kids)]), c.universe)
    requires |outs| == |kids| > 0 && outs[0].ORef? && KidsF(c, r, kids) == Result(outs, last)
    ensures ConvertF(c, r, Obj([Group(AllOf, kids)])) == Result(EMPTY.(allOf := Variants(outs)), last)
  {
    ConvertGroup(c, r, AllOf, kids);
    FinishAllOf(EMPTY.(allOf := Variants(outs)), outs);
    assert !PlainObject(outs[0]);
  }

  /** Resolving the recursive definition a second time, inside its own body. */
  lemma ResolveLoopInside(r: Reg)
    requires r == Initial(map[]).(inlining := {LOOP})
    ensures Registry.Closed(Clash())
    ensures var res := ResolveF(Clash(), r, LOOP);
      && res.out == ORef(FIRST)
      && res.reg.converted == map[LOOP := ORef(FIRST), FIRST := ORef(FIRST)]
      && res.reg.schemas == map[FIRST := LoopOut()]
  {
    ClashNames();
    var p := PlanFor(Clash(), r, LOOP);
    assert p.Component? && p.name == FIRST;
    ResolveFirst(p.start);
    LoopRefs();
    ConvertTwoRefs(Clash(), p.start, LOOP, FIRST, Result(ORef(FIRST), p.start), ResolveF(Clash(), p.start, FIRST));
  }

  /**
    An anonymous component does not reserve its name before its body is converted. With a definition
    named `Anonymous1`, whose body is a string schema, the anonymous component is stored over it.
  */
  lemma AnonymousReplacesNamed()
    ensures Registry.Closed(Clash())
    ensures var res := ResolveF(Clash(), Initial(map[]), LOOP);
      && res.reg.converted == map[LOOP := ORef(FIRST), FIRST := ORef(FIRST)]
      && res.reg.schemas == map[FIRST := LoopOut()]
      && Body(Clash(), FIRST) == STRING_SCHEMA
  {
    ClashNames();
    var r := Initial(map[]);
    var p := PlanFor(Clash(), r, LOOP);
    assert p.Inline? && p.start == r.(inlining := {LOOP});
    ResolveLoopInside(p.start);
    var x := ResolveF(Clash(), p.start, LOOP);
    LoopRefs();
    ConvertTwoRefs(Clash(), p.start, LOOP, FIRST, x, ResolveF(Clash(), x.reg, FIRST));
  }

  // ----- two definitions that differ in a property called description -----

  const A_USER := "a.User"
  const B_USER := "b.User"
  const USER := "User"
  const NUMBER_SCHEMA := Obj([Leaf(Type(One(TNumber)))])

  /** A user with a description in words, and one with a number for it. */
  function Users(): Context
  {
    Context(map[A_USER := DescriptionProperty([], STRING_SCHEMA), B_USER := DescriptionProperty([], NUMBER_SCHEMA)], {},
            {A_USER, B_USER})
  }

  function UserOut(): Out
  {
    EMPTY.(typ := One(TObject), props := Props(map[DESCRIPTION := EMPTY.(typ := One(TString))]))
  }

  lemma UserNames()
    ensures ComponentNameFor(A_USER) == Some(USER) && ComponentNameFor(B_USER) == Some(USER)
    ensures !IsAnyJson(A_USER) && !IsAnyJson(B_USER) && A_USER != B_USER
  {
    LastIsUser("a");
    LastIsUser("b");
    assert "a" + ".User" == A_USER && "b" + ".User" == B_USER;
    assert A_USER[0] != B_USER[0];
  }

  lemma LastIsUser(s: string)
    ensures LastSegment(s + ".User") == USER
  {
    var t := s + ".User";
    var n := |s|;
    assert t[..n + 4][..n + 3] == t[..n + 3] && t[..n + 3][..n + 2] == t[..n + 2] && t[..n + 2][..n + 1] == t[..n + 1];
    assert t[..n + 5] == t && t[..n + 5][..n + 4] == t[..n + 4];
    assert LastSegment(t[..n + 1]) == [];
    assert LastSegment(t[..n + 2]) == [] + ['U'];
    assert LastSegment(t[..n + 3]) == ['U'] + ['s'];
    assert LastSegment(t[..n + 4]) == ['U', 's'] + ['e'];
  }

  lemma TypedRefs(t: Type, names: set<string>)
    ensures RefsIn(DescriptionProperty([], Obj([Leaf(Type(One(t)))])), names)
  {
    var kids := [] + [Kid(DESCRIPTION, Obj([Leaf(Type(One(t)))]))];
    assert EntriesRefsIn([Leaf(Type(One(t)))], names);
    assert RefsIn(kids[0].schema, names) && KidsRefsIn(kids, names);
    assert EntriesRefsIn([Leaf(Type(One(TObject))), Group(Properties, kids)], names);
  }

  lemma UsersClosed()
    ensures Registry.Closed(Users()) && RefsIn(DescriptionProperty([], STRING_SCHEMA), Users().universe)
  {
    TypedRefs(TString, Users().universe);
    TypedRefs(TNumber, Users().universe);
  }

  lemma ConvertOne(c: Context, r: Reg, name: string, s: Schema)
    requires Registry.Closed(c) && RefsIn(s, c.universe)
    ensures KidsRefsIn([Kid(name, s)], c.universe)
    ensures KidsF(c, r, [Kid(name, s)]) == Result([ConvertF(c, r, s).out], ConvertF(c, r, s).reg)
  {
    var kids := [Kid(name, s)];
    assert kids[..0] == [];
    assert KidsF(c, r, kids[..0]) == Result([], r);
    assert [] + [ConvertF(c, r, s).out] == [ConvertF(c, r, s).out];
  }

  /** The body of the first user, from any state. */
  lemma ConvertUser(c: Context, r: Reg)
    requires Registry.Closed(c)
    ensures RefsIn(DescriptionProperty([], STRING_SCHEMA), c.universe)
    ensures ConvertF(c, r, DescriptionProperty([], STRING_SCHEMA)) == Result(UserOut(), r)
  {
    var kids := [Kid(DESCRIPTION, STRING_SCHEMA)];
    assert [] + kids == kids;
    ConvertOne(c, r, DESCRIPTION, STRING_SCHEMA);
    ConvertType(c, r, TString);
    ConvertTypeAnd(c, r, TObject, Properties, kids, [EMPTY.(typ := One(TString))]);
    OneProperty(DESCRIPTION, STRING_SCHEMA, EMPTY.(typ := One(TString)));
    UserStays();
  }

  lemma OneProperty(name: string, s: Schema, o: Out)
    ensures PropsOf([Kid(name, s)], [o]) == map[name := o]
  {
    assert [Kid(name, s)][..0] == [] && [o][..0] == [];
  }

  lemma UserStays()
    ensures Finish(UserOut()) == UserOut()
  {
  }

  lemma UsersShareMark()
    ensures ComponentNameFor(A_USER).Some? && ComponentNameFor(B_USER).Some?
    ensures Mark(Users(), A_USER) == Mark(Users(), B_USER)
  {
    UserNames();
    StripDescriptionProperty([], STRING_SCHEMA);
    StripDescriptionProperty([], NUMBER_SCHEMA);
  }

  lemma ResolveUsers(r: Reg)
    requires r == Initial(map[])
    ensures Registry.Closed(Users())
    ensures var first := ResolveF(Users(), r, A_USER);
      var second := ResolveF(Users(), first.reg, B_USER);
      first.out == second.out == ORef(USER) && second.reg.schemas == map[USER := UserOut()]
  {
    UserNames();
    UsersClosed();
    UsersShareMark();
    var p := PlanFor(Users(), r, A_USER);
    assert p == Component(USER, Reserve(r, A_USER, Mark(Users(), A_USER), USER));
    ConvertUser(Users(), p.start);
    var first := ResolveF(Users(), r, A_USER);
    assert first.reg == Store(p.start, USER, UserOut());
    assert PlanFor(Users(), first.reg, B_USER).out == ORef(USER);
  }

  lemma NumberDescribed(m: Meaning)
    ensures Valid(DescriptionProperty([], NUMBER_SCHEMA), JObj(map[DESCRIPTION := JNum(1.0)]), m)
  {
    var es := [Leaf(Type(One(TNumber)))];
    DescriptionPropertyMeans([], NUMBER_SCHEMA, JObj(map[DESCRIPTION := JNum(1.0)]), m);
    assert Valid(Obj(es), JNum(1.0), m) by { OneEntryValid(es[0], JNum(1.0), m); }
  }

  lemma UserRejects(cm: Meaning)
    ensures !OValid(UserOut(), JObj(map[DESCRIPTION := JNum(1.0)]), cm)
  {
    var o, v := EMPTY.(typ := One(TString)), JObj(map[DESCRIPTION := JNum(1.0)]);
    assert !OValid(o, JNum(1.0), cm);
    assert DESCRIPTION in UserOut().props.value && UserOut().props.value[DESCRIPTION] == o && v.members[DESCRIPTION] == JNum(1.0);
    assert !PropsOk(UserOut().props, v, cm);
  }

  /**
    A graph of two definitions with one short name that differ in the type of a property called `description`:
    both are converted to the first one's component, which rejects a value that the second one accepts.
  */
  lemma TwinsLoseMeaning(m: Meaning, cm: Meaning)
    ensures Registry.Closed(Users())
    ensures var res := RunF(Users(), Initial(map[]), [Convert(Ref(Some(A_USER))), Convert(Ref(Some(B_USER)))]);
      var v := JObj(map[DESCRIPTION := JNum(1.0)]);
      && res.out == [ORef(USER), ORef(USER)]
      && res.reg.schemas.Keys == {USER}
      && Valid(Body(Users(), B_USER), v, m) && !OValid(res.reg.schemas[USER], v, cm)
  {
    UsersClosed();
    ResolveUsers(Initial(map[]));
    RunTwo(Users(), Initial(map[]), Ref(Some(A_USER)), Ref(Some(B_USER)));
    NumberDescribed(m);
    UserRejects(cm);
  }

  lemma RunTwo(c: Context, r: Reg, a: Schema, b: Schema)
    requires Registry.Closed(c) && RefsIn(a, c.universe) && RefsIn(b, c.universe)
    ensures var first := ConvertF(c, r, a);
      var second := ConvertF(c, first.reg, b);
      RunF(c, r, [Convert(a), Convert(b)]) == Result([first.out, second.out], second.reg)
  {
    var ops := [Convert(a), Convert(b)];
    assert ops[..1] == [Convert(a)] && ops[..1][..0] == [];
    var first := ConvertF(c, r, a);
    assert RunF(c, r, []) == Result([], r);
    assert [] + [first.out] == [first.out];
    assert RunF(c, r, [Convert(a)]) == Result([first.out], first.reg);
    assert [first.out] + [ConvertF(c, first.reg, b).out] == [first.out, ConvertF(c, first.reg, b).out];
  }

  // ----- looks, over whole runs -----

  /**
    Over any run: a result is a bare null, or an object without constraints, exactly when the source says so;
    and the states in between are such that this goes on.
  */
  lemma {:induction false} RunLooks(c: Context, r: Reg, ops: seq<Op>)
    requires Registry.Closed(c) && DefinitionsKeyed(c) && HeavyConverted(c, r) && r.inlining == {}
    requires forall i | 0 <= i < |ops| :: RefsIn(ops[i].schema, c.universe) && Keyed(ops[i].schema)
    ensures var res := RunF(c, r, ops);
      && HeavyConverted(c, res.reg) && res.reg.inlining == {}
      && forall i | 0 <= i < |ops| && ops[i].Convert? :: Looks(c, ops[i].schema, res.out[i])
  {
    if ops != [] {
      var n := |ops| - 1;
      var before := RunF(c, r, ops[..n]);
      RunLooks(c, r, ops[..n]);
      ConvertLooks(c, before.reg, ops[n].schema);
    }
  }
}
