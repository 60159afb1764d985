/**
  Meaning through references: if every definition means what its body says, then every converted
  schema, and every stored component, means the same under the components' meaning.
*/
module RegistryMeaning {
  import opened Options
  import opened JsonSchema
  import opened OpenApi
  import opened SchemaRewrite
  import opened SchemaMeaning
  import opened OutputMono
  import opened OutputShape
  import opened ComponentNames
  import opened NullLooks
  import opened Registry
  import opened RegistryInvariants
  import opened RegistrySafety
  import opened BoundedMeaning

  // ----- the fragment, through references -----

  /** A part of `allOf` that says only which properties an object has. */
  predicate ObjectPart(s: Schema)
  {
    && s.Obj?
    && TypeOf(s.entries) == One(TObject)
    && forall i | 0 <= i < |s.entries| ::
         match s.entries[i]
         case Leaf(l) => l.Type? || l.Required? || l.Default? || l.Note? || l.Dropped?
         case Group(kw, _) => kw.Properties?
  }

  /** A reference to a definition that has a name of its own. */
  predicate NamedRef(s: Schema)
  {
    s.Ref? && s.target.Some? && ComponentNameFor(s.target.value).Some?
  }

  /** Flattening loses nothing, or does not happen. */
  predicate AllOfExactly(kids: seq<Kid>)
  {
    || |kids| <= 1
    || (exists i | 0 <= i < |kids| :: NamedRef(kids[i].schema))
    || ((forall i | 0 <= i < |kids| :: ObjectPart(kids[i].schema))
        && forall i, j | 0 <= i < j < |kids| :: PropNames(kids[i].schema.entries) !! PropNames(kids[j].schema.entries))
  }

  /** The fragment for the subschemas of one keyword. */
  ghost predicate KidsFit(exact: bool, c: Context, kw: GroupKw, kids: seq<Kid>)
  {
    && (kw.AnyOf? && (exists i | 0 <= i < |kids| :: NullVariant(c, kids[i].schema)) ==>
          forall i | 0 <= i < |kids| :: !VagueVariant(c, kids[i].schema))
    && (exact && !kw.AnyOf? ==> forall i | 0 <= i < |kids| :: !NullVariant(c, kids[i].schema))
    && (exact && kw.AllOf? ==> AllOfExactly(kids))
  }

  ghost predicate SchemaOk(exact: bool, c: Context, s: Schema)
    decreases s
  {
    match s
    case Absent => true
    case Always(b) => exact ==> b
    case Ref(None) => true
    case Ref(Some(d)) => exact ==> !IsAnyJson(d)
    case Obj(es) => InFragment(es) && (exact ==> ExactEntries(es)) && EntriesOk(exact, c, es)
  }

  ghost predicate EntriesOk(exact: bool, c: Context, es: seq<Entry>)
    decreases es
  {
    forall i | 0 <= i < |es| && es[i].Group? :: KidsFit(exact, c, es[i].kw, es[i].kids) && KidsOk(exact, c, es[i].kids)
  }

  ghost predicate KidsOk(exact: bool, c: Context, kids: seq<Kid>)
    decreases kids
  {
    forall i | 0 <= i < |kids| :: SchemaOk(exact, c, kids[i].schema)
  }

  /**
    Every definition used is in the fragment; for exactness none is a bare null.
  */
  ghost predicate DefinitionsOk(exact: bool, c: Context)
  {
    forall d | d in c.universe ::
      && SchemaOk(exact, c, Body(c, d))
      && (exact ==> !NullVariant(c, Body(c, d)))
  }

  // ----- the meaning of references -----

  lemma BlankBesideNull(outs: seq<Out>)
    ensures OneBlank(outs) ==> HasNull(outs) && HasBlank(outs)
  {
    if OneBlank(outs) { BlankAndNull(outs); }
  }

  lemma BlankAndNull(outs: seq<Out>)
    requires OneBlank(outs)
    ensures HasNull(outs) && HasBlank(outs)
  {
    var k :| 0 <= k < |outs| && Blank(outs[k]) && forall i | 0 <= i < |outs| && i != k :: IsNullSchema(outs[i]);
    var i := if k == 0 then 1 else 0;
    assert IsNullSchema(outs[i]);
  }

  lemma NodeShape(es: seq<Entry>, outss: seq<seq<Out>>)
    requires Fits(es, outss) && InFragment(es)
    requires forall i | 0 <= i < |es| && es[i].Group? && es[i].kw.AnyOf? :: HasNull(outss[i]) ==> !HasBlank(outss[i])
    ensures IsNullSchema(Finish(Draft(es, outss))) ==> BareNullEntries(es)
    ensures Blank(Finish(Draft(es, outss))) ==> Vague(Obj(es))
  {
    NodeLooks(es, outss);
    forall u | 0 <= u < |es| && UnionAlone(es, u) ensures !OneBlank(outss[u]) {
      assert EntryInFragment(es[u]);
      BlankBesideNull(outss[u]);
    }
  }

  predicate LinkedOn(side: Side, d: string, name: string, v: Json, m: Meaning, cm: Meaning)
  {
    && (side.sound && m.refs(d, v) ==> cm.refs(name, v))
    && (side.exact && cm.refs(name, v) ==> m.refs(d, v))
  }

  /** A converted definition and its component mean the same. */
  ghost predicate Linked(side: Side, r: Reg, m: Meaning, cm: Meaning)
  {
    forall d, v | d in r.converted && r.converted[d].ORef? :: LinkedOn(side, d, r.converted[d].name, v, m, cm)
  }

  /** Both sides read the uninterpreted assertions alike; they never reject null. */
  ghost predicate SameExt(side: Side, m: Meaning, cm: Meaning)
  {
    m.ext == cm.ext && (side.exact ==> forall k, j :: cm.ext(k, j, JNull))
  }

  lemma LinkedBefore(side: Side, r: Reg, r': Reg, m: Meaning, cm: Meaning)
    requires Linked(side, r', m, cm) && Grows(r.converted, r'.converted)
    ensures Linked(side, r, m, cm)
  {
    forall d, v | d in r.converted && r.converted[d].ORef? ensures LinkedOn(side, d, r.converted[d].name, v, m, cm) {
      assert r'.converted[d] == r.converted[d];
    }
  }

  /** What the output looks like: a bare null or a blank only where the source is one, and clean OpenAPI 3.0. */
  ghost predicate Shaped(c: Context, s: Schema, o: Out)
  {
    && Clean(o) && Steady(o)
    && (IsNullSchema(o) ==> NullVariant(c, s))
    && (Blank(o) ==> VagueVariant(c, s))
    && (ObjectPart(s) ==> PartOnly(o) && OutNames(o) == PropNames(s.entries))
    && (NamedRef(s) && !IsAnyJson(s.target.value) ==> o.ORef?)
  }

  ghost predicate Faithful(side: Side, c: Context, s: Schema, o: Out, m: Meaning, cm: Meaning)
  {
    Agrees(side, s, o, m, cm) && Shaped(c, s, o)
  }

  ghost predicate KidsFaithful(side: Side, c: Context, kids: seq<Kid>, outs: seq<Out>, m: Meaning, cm: Meaning)
  {
    |kids| == |outs| && forall i | 0 <= i < |kids| :: Faithful(side, c, kids[i].schema, outs[i], m, cm)
  }

  /** A component stored since `r` holds the conversion of a definition that is converted to it. */
  ghost predicate Backed(side: Side, c: Context, r: Reg, n: string, m: Meaning, cm: Meaning)
    requires n in r.schemas
  {
    exists d | d in r.converted && d in c.universe ::
      && r.converted[d] == ORef(n)
      && Faithful(side, c, Body(c, d), r.schemas[n], m, cm)
  }

  ghost predicate NewBacked(side: Side, c: Context, r: Reg, r': Reg, m: Meaning, cm: Meaning)
  {
    forall n | n in r'.schemas && n !in r.schemas :: Backed(side, c, r', n, m, cm)
  }

  lemma NewBackedTransitive(side: Side, c: Context, r: Reg, r1: Reg, r2: Reg, m: Meaning, cm: Meaning)
    requires NewBacked(side, c, r, r1, m, cm) && NewBacked(side, c, r1, r2, m, cm)
    requires Grows(r1.schemas, r2.schemas) && Grows(r1.converted, r2.converted)
    ensures NewBacked(side, c, r, r2, m, cm)
  {
    forall n | n in r2.schemas && n !in r.schemas ensures Backed(side, c, r2, n, m, cm) {
      if n in r1.schemas {
        var d :| d in r1.converted && d in c.universe && r1.converted[d] == ORef(n)
                 && Faithful(side, c, Body(c, d), r1.schemas[n], m, cm);
        assert r2.converted[d] == ORef(n) && r2.schemas[n] == r1.schemas[n];
      }
    }
  }

  // ----- one object -----

  lemma PartShape(es: seq<Entry>, outss: seq<seq<Out>>)
    requires Fits(es, outss) && InFragment(es) && ObjectPart(Obj(es))
    ensures PartOnly(Finish(Draft(es, outss))) && OutNames(Finish(Draft(es, outss))) == PropNames(es)
  {
    PartDraft(es, outss);
    DraftNames(es, outss);
    FinishPlain(Draft(es, outss));
  }

  lemma PartSlots(es: seq<Entry>)
    requires ObjectPart(Obj(es))
    ensures forall i | 0 <= i < |es| :: Slot(es[i]) != KEnum && Slot(es[i]) != KAdditional && Slot(es[i]) != KItems
    ensures forall i | 0 <= i < |es| && es[i].Group? :: es[i].kw.Properties?
    ensures forall i | 0 <= i < |es| && es[i].Leaf? :: !es[i].leaf.Other?
  {
  }

  lemma PartDraft(es: seq<Entry>, outss: seq<seq<Out>>)
    requires Fits(es, outss) && ObjectPart(Obj(es))
    ensures PlainDraft(Draft(es, outss)) && PartOnly(Draft(es, outss))
  {
    PartSlots(es);
    DraftPlain(es, outss);
    DraftShape(es, outss);
    DraftFree(es, outss, KEnum);
    DraftFree(es, outss, KAdditional);
    DraftFree(es, outss, KItems);
    NoOthers(es, outss);
  }

  lemma {:induction false} NoOthers(es: seq<Entry>, outss: seq<seq<Out>>)
    requires Fits(es, outss)
    requires forall i | 0 <= i < |es| && es[i].Leaf? :: !es[i].leaf.Other?
    ensures Draft(es, outss).others == map[]
  {
    if es != [] {
      NoOthers(es[..|es| - 1], outss[..|es| - 1]);
    }
  }

  /** What the fragment says about source subschemas holds of the translated ones. */
  lemma OutsFitFrom(side: Side, c: Context, kw: GroupKw, kids: seq<Kid>, outs: seq<Out>, m: Meaning, cm: Meaning)
    requires KidsFit(side.exact, c, kw, kids) && KidsOk(side.exact, c, kids) && KidsFaithful(side, c, kids, outs, m, cm)
    ensures OutsFit(side.exact, Group(kw, kids), outs)
  {
    forall i | 0 <= i < |kids| ensures Shaped(c, kids[i].schema, outs[i]) {
      assert Faithful(side, c, kids[i].schema, outs[i], m, cm);
    }
    if kw.AnyOf? && HasNull(outs) {
      var i :| 0 <= i < |outs| && IsNullSchema(outs[i]);
      assert NullVariant(c, kids[i].schema);
    }
    if side.exact && kw.AllOf? && AllPlain(outs) && |outs| > 1 {
      forall i | 0 <= i < |kids| ensures !NamedRef(kids[i].schema) {
        assert SchemaOk(side.exact, c, kids[i].schema);
        assert PlainObject(outs[i]);
      }
    }
  }

  ghost predicate AllFaithful(side: Side, c: Context, es: seq<Entry>, outss: seq<seq<Out>>, m: Meaning, cm: Meaning)
  {
    |es| == |outss| && forall i | 0 <= i < |es| && es[i].Group? :: KidsFaithful(side, c, es[i].kids, outss[i], m, cm)
  }

  lemma AllFaithfulMore(side: Side, c: Context, es: seq<Entry>, outss: seq<seq<Out>>, outs: seq<Out>, m: Meaning, cm: Meaning)
    requires es != [] && AllFaithful(side, c, es[..|es| - 1], outss, m, cm)
    requires es[|es| - 1].Group? ==> KidsFaithful(side, c, es[|es| - 1].kids, outs, m, cm)
    ensures AllFaithful(side, c, es, outss + [outs], m, cm)
  {
    forall i | 0 <= i < |es| - 1 && es[i].Group? ensures KidsFaithful(side, c, es[i].kids, outss[i], m, cm) {
      assert es[..|es| - 1][i] == es[i];
    }
  }

  lemma NodeClean(side: Side, c: Context, es: seq<Entry>, outss: seq<seq<Out>>, m: Meaning, cm: Meaning)
    requires Fits(es, outss) && InFragment(es) && AllFaithful(side, c, es, outss, m, cm)
    ensures Clean(Finish(Draft(es, outss)))
  {
    forall i | 0 <= i < |es| && es[i].Group? ensures DeepVariants(CleanNode, Variants(outss[i])) {
      assert KidsFaithful(side, c, es[i].kids, outss[i], m, cm);
      forall k | 0 <= k < |outss[i]| ensures Clean(outss[i][k]) {
        assert Faithful(side, c, es[i].kids[k].schema, outss[i][k], m, cm);
      }
    }
    DraftDeep(CleanNode, es, outss);
    FinishClean(Draft(es, outss));
    if i :| 0 <= i < |es| && Combinator(es[i]) {
      DraftCombinator(es, outss, i);
    } else {
      assert forall i | 0 <= i < |es| :: EntryInFragment(es[i]);
      DraftPlain(es, outss);
    }
  }

  lemma NodeIsSteady(side: Side, c: Context, es: seq<Entry>, outss: seq<seq<Out>>, m: Meaning, cm: Meaning)
    requires Fits(es, outss) && InFragment(es) && AllFaithful(side, c, es, outss, m, cm)
    ensures Steady(Finish(Draft(es, outss)))
  {
    forall i | 0 <= i < |es| && es[i].Group? ensures SteadyVariants(Variants(outss[i])) {
      assert KidsFaithful(side, c, es[i].kids, outss[i], m, cm);
      forall k | 0 <= k < |outss[i]| ensures Steady(outss[i][k]) {
        assert Faithful(side, c, es[i].kids[k].schema, outss[i][k], m, cm);
      }
    }
    NodeSteady(es, outss);
  }

  lemma NodeFaithful(side: Side, c: Context, es: seq<Entry>, outss: seq<seq<Out>>, m: Meaning, cm: Meaning)
    requires Fits(es, outss) && SchemaOk(side.exact, c, Obj(es)) && SameExt(side, m, cm)
    requires AllFaithful(side, c, es, outss, m, cm)
    ensures Faithful(side, c, Obj(es), Finish(Draft(es, outss)), m, cm)
  {
    forall i | 0 <= i < |es| ensures OutsFit(side.exact, es[i], outss[i]) {
      if es[i].Group? {
        assert KidsFit(side.exact, c, es[i].kw, es[i].kids);
        OutsFitFrom(side, c, es[i].kw, es[i].kids, outss[i], m, cm);
      }
    }
    forall i | 0 <= i < |es| && es[i].Group? ensures KidsAgree(side, es[i].kids, outss[i], m, cm) {
      assert KidsFaithful(side, c, es[i].kids, outss[i], m, cm);
    }
    NodeAgrees(side, es, outss, m, cm);
    NodeShape(es, outss);
    Written(c, Obj(es));
    NodeIsSteady(side, c, es, outss, m, cm);
    NodeClean(side, c, es, outss, m, cm);
    if ObjectPart(Obj(es)) { PartShape(es, outss); }
  }

  // ----- every conversion -----

  ghost predicate Setting(side: Side, c: Context, r: Reg, m: Meaning, cm: Meaning)
  {
    && Closed(c) && NoAnonNames(c) && Inv(c, r)
    && DefinitionsOk(side.exact, c) && Solves(side, c, m) && SameExt(side, m, cm)
  }

  lemma {:induction false} ConvertFaithful(side: Side, c: Context, r: Reg, s: Schema, m: Meaning, cm: Meaning)
    requires Setting(side, c, r, m, cm) && RefsIn(s, c.universe) && SchemaOk(side.exact, c, s)
    requires Linked(side, ConvertF(c, r, s).reg, m, cm)
    ensures Faithful(side, c, s, ConvertF(c, r, s).out, m, cm)
    ensures NewBacked(side, c, r, ConvertF(c, r, s).reg, m, cm)
    decreases Todo(c, r), Open(c, r), s, 2
  {
    match s
    case Ref(Some(d)) => ResolveFaithful(side, c, r, d, m, cm);
    case Obj(es) =>
      EntriesFaithful(side, c, r, es, m, cm);
      NodeFaithful(side, c, es, EntriesF(c, r, es).out, m, cm);
    case _ => AnythingFaithful(side, c, s, EMPTY, m, cm);
  }

  /** An output without constraints stands for a schema that accepts everything. */
  lemma AnythingFaithful(side: Side, c: Context, s: Schema, o: Out, m: Meaning, cm: Meaning)
    requires o.ONode? && Core(o) == EMPTY && !o.nullable
    requires Vague(s) || !Blank(o)
    requires !s.Obj? && (NamedRef(s) ==> IsAnyJson(s.target.value))
    requires side.exact ==> forall w :: Valid(s, w, m)
    ensures Faithful(side, c, s, o, m, cm)
  {
    forall w ensures AgreesOn(side, s, o, w, m, cm) {
      NoConstraints(o, w, cm);
    }
    Written(c, s);
    NoKids(CleanNode, o);
    NoSubs(o);
  }

  lemma NoConstraints(o: Out, w: Json, cm: Meaning)
    requires o.ONode? && o.typ.NoType? && o.enum.None? && o.required.None? && o.others == map[]
    requires o.props.NoProps? && o.items.NoItems? && o.additional.AddNone?
    requires o.anyOf.NoVariants? && o.oneOf.NoVariants? && o.allOf.NoVariants?
    ensures OValid(o, w, cm)
  {
    assert PropsOk(o.props, w, cm) && ItemsOk(o.items, w, cm) && AdditionalOk(o.additional, OutNames(o), w, cm);
    assert AnyOfOk(o.anyOf, w, cm) && OneOfOk(o.oneOf, w, cm) && AllOfOk(o.allOf, w, cm);
    assert Constraints(o, w, cm);
  }

  lemma {:induction false} EntriesFaithful(side: Side, c: Context, r: Reg, es: seq<Entry>, m: Meaning, cm: Meaning)
    requires Setting(side, c, r, m, cm) && EntriesRefsIn(es, c.universe) && EntriesOk(side.exact, c, es)
    requires Linked(side, EntriesF(c, r, es).reg, m, cm)
    ensures AllFaithful(side, c, es, EntriesF(c, r, es).out, m, cm)
    ensures NewBacked(side, c, r, EntriesF(c, r, es).reg, m, cm)
    decreases Todo(c, r), Open(c, r), es, 1
  {
    if es != [] {
      var n := |es| - 1;
      var before := EntriesF(c, r, es[..n]);
      EntriesKeep(c, r, es[..n]);
      if es[n].Group? {
        var here := KidsF(c, before.reg, es[n].kids);
        LastGroupFaithful(side, c, r, es, before.reg, m, cm);
        EntriesFaithful(side, c, r, es[..n], m, cm);
        NewBackedTransitive(side, c, r, before.reg, here.reg, m, cm);
        AllFaithfulMore(side, c, es, before.out, here.out, m, cm);
      } else {
        EntriesFaithful(side, c, r, es[..n], m, cm);
        AllFaithfulMore(side, c, es, before.out, [], m, cm);
      }
    }
  }

  lemma {:induction false} LastGroupFaithful(side: Side, c: Context, r: Reg, es: seq<Entry>, reg: Reg, m: Meaning, cm: Meaning)
    requires Setting(side, c, reg, m, cm) && EntriesRefsIn(es, c.universe) && EntriesOk(side.exact, c, es)
    requires es != [] && es[|es| - 1].Group?
    requires r.converted.Keys <= reg.converted.Keys && reg.inlining == r.inlining
    requires Linked(side, KidsF(c, reg, es[|es| - 1].kids).reg, m, cm)
    ensures Linked(side, reg, m, cm)
    ensures KidsFaithful(side, c, es[|es| - 1].kids, KidsF(c, reg, es[|es| - 1].kids).out, m, cm)
    ensures NewBacked(side, c, reg, KidsF(c, reg, es[|es| - 1].kids).reg, m, cm)
    ensures Kept(c, reg, KidsF(c, reg, es[|es| - 1].kids).reg)
    decreases Todo(c, r), Open(c, r), es, 0
  {
    var kids := es[|es| - 1].kids;
    TodoShrinks(c, r, reg);
    KidsKeep(c, reg, kids);
    LinkedBefore(side, reg, KidsF(c, reg, kids).reg, m, cm);
    assert KidsOk(side.exact, c, kids);
    KidsAllFaithful(side, c, reg, kids, m, cm);
  }

  lemma KidsFaithfulMore(side: Side, c: Context, kids: seq<Kid>, outs: seq<Out>, o: Out, m: Meaning, cm: Meaning)
    requires kids != [] && KidsFaithful(side, c, kids[..|kids| - 1], outs, m, cm)
    requires Faithful(side, c, kids[|kids| - 1].schema, o, m, cm)
    ensures KidsFaithful(side, c, kids, outs + [o], m, cm)
  {
  }

  lemma {:induction false} KidsAllFaithful(side: Side, c: Context, r: Reg, kids: seq<Kid>, m: Meaning, cm: Meaning)
    requires Setting(side, c, r, m, cm) && KidsRefsIn(kids, c.universe) && KidsOk(side.exact, c, kids)
    requires Linked(side, KidsF(c, r, kids).reg, m, cm)
    ensures KidsFaithful(side, c, kids, KidsF(c, r, kids).out, m, cm)
    ensures NewBacked(side, c, r, KidsF(c, r, kids).reg, m, cm)
    decreases Todo(c, r), Open(c, r), kids, 1
  {
    if kids != [] {
      var n := |kids| - 1;
      var before := KidsF(c, r, kids[..n]);
      KidsKeep(c, r, kids[..n]);
      var here := ConvertF(c, before.reg, kids[n].schema);
      LastKidFaithful(side, c, r, kids, before.reg, m, cm);
      KidsAllFaithful(side, c, r, kids[..n], m, cm);
      NewBackedTransitive(side, c, r, before.reg, here.reg, m, cm);
      KidsFaithfulMore(side, c, kids, before.out, here.out, m, cm);
    }
  }

  lemma {:induction false} LastKidFaithful(side: Side, c: Context, r: Reg, kids: seq<Kid>, reg: Reg, m: Meaning, cm: Meaning)
    requires Setting(side, c, reg, m, cm) && KidsRefsIn(kids, c.universe) && KidsOk(side.exact, c, kids) && kids != []
    requires r.converted.Keys <= reg.converted.Keys && reg.inlining == r.inlining
    requires Linked(side, ConvertF(c, reg, kids[|kids| - 1].schema).reg, m, cm)
    ensures Linked(side, reg, m, cm)
    ensures Faithful(side, c, kids[|kids| - 1].schema, ConvertF(c, reg, kids[|kids| - 1].schema).out, m, cm)
    ensures NewBacked(side, c, reg, ConvertF(c, reg, kids[|kids| - 1].schema).reg, m, cm)
    ensures Kept(c, reg, ConvertF(c, reg, kids[|kids| - 1].schema).reg)
    decreases Todo(c, r), Open(c, r), kids, 0
  {
    var s := kids[|kids| - 1].schema;
    TodoShrinks(c, r, reg);
    ConvertKeeps(c, reg, s);
    LinkedBefore(side, reg, ConvertF(c, reg, s).reg, m, cm);
    ConvertFaithful(side, c, reg, s, m, cm);
  }

  lemma {:induction false} ResolveFaithful(side: Side, c: Context, r: Reg, d: string, m: Meaning, cm: Meaning)
    requires Setting(side, c, r, m, cm) && d in c.universe && (side.exact ==> !IsAnyJson(d))
    requires Linked(side, ResolveF(c, r, d).reg, m, cm)
    ensures Faithful(side, c, Ref(Some(d)), ResolveF(c, r, d).out, m, cm)
    ensures NewBacked(side, c, r, ResolveF(c, r, d).reg, m, cm)
    decreases Todo(c, r), Open(c, r), Ref(Some(d)), 1
  {
    BodyRefsIn(c, d);
    if !PlanFor(c, r, d).Known? {
      StartedFaithful(side, c, r, d, m, cm);
    }
    ResolveFaithfulFrom(side, c, r, d, m, cm);
  }

  lemma {:induction false} StartedFaithful(side: Side, c: Context, r: Reg, d: string, m: Meaning, cm: Meaning)
    requires Setting(side, c, r, m, cm) && d in c.universe && !PlanFor(c, r, d).Known?
    requires Linked(side, ResolveF(c, r, d).reg, m, cm)
    requires RefsIn(Body(c, d), c.universe)
    ensures var p := PlanFor(c, r, d);
      && (p.Component? ==> Started(r, p.start, p.name))
      && BodyDone(side, c, p.start, d, ConvertF(c, p.start, Body(c, d)), m, cm)
    decreases Todo(c, r), Open(c, r), Ref(Some(d)), 0
  {
    StartReady(side, c, r, d, m, cm);
    BodyFaithful(side, c, PlanFor(c, r, d).start, d, m, cm);
  }

  /** The body's conversion starts from a good state, and with a smaller measure. */
  lemma StartReady(side: Side, c: Context, r: Reg, d: string, m: Meaning, cm: Meaning)
    requires Setting(side, c, r, m, cm) && d in c.universe && !PlanFor(c, r, d).Known?
    requires Linked(side, ResolveF(c, r, d).reg, m, cm) && RefsIn(Body(c, d), c.universe)
    ensures var p := PlanFor(c, r, d);
      && Setting(side, c, p.start, m, cm)
      && (p.Component? ==> Started(r, p.start, p.name))
      && Linked(side, ConvertF(c, p.start, Body(c, d)).reg, m, cm)
      && (Todo(c, p.start) < Todo(c, r) || (Todo(c, p.start) == Todo(c, r) && Open(c, p.start) < Open(c, r)))
  {
    var start := PlanFor(c, r, d).start;
    PlanKeeps(c, r, d);
    if PlanFor(c, r, d).Component? { TodoFewer(c, r, d, start); } else { OpenFewer(c, r, d, start); }
    ResolveLinked(side, c, r, d, m, cm);
  }

  ghost predicate BodyDone(side: Side, c: Context, start: Reg, d: string, done: Result<Out>, m: Meaning, cm: Meaning)
  {
    && Extends(start, done.reg) && Linked(side, done.reg, m, cm)
    && Faithful(side, c, Body(c, d), done.out, m, cm) && NewBacked(side, c, start, done.reg, m, cm)
  }

  lemma {:induction false} BodyFaithful(side: Side, c: Context, start: Reg, d: string, m: Meaning, cm: Meaning)
    requires Setting(side, c, start, m, cm) && d in c.universe && RefsIn(Body(c, d), c.universe)
    requires Linked(side, ConvertF(c, start, Body(c, d)).reg, m, cm)
    ensures BodyDone(side, c, start, d, ConvertF(c, start, Body(c, d)), m, cm)
    decreases Todo(c, start), Open(c, start), Body(c, d), 3
  {
    ConvertKeeps(c, start, Body(c, d));
    ConvertFaithful(side, c, start, Body(c, d), m, cm);
  }

  lemma ResolveLinked(side: Side, c: Context, r: Reg, d: string, m: Meaning, cm: Meaning)
    requires Closed(c) && d in c.universe && RefsIn(Body(c, d), c.universe) && !PlanFor(c, r, d).Known?
    requires Linked(side, ResolveF(c, r, d).reg, m, cm)
    ensures Linked(side, ConvertF(c, PlanFor(c, r, d).start, Body(c, d)).reg, m, cm)
  {
    var done := ConvertF(c, PlanFor(c, r, d).start, Body(c, d));
    assert ResolveF(c, r, d).reg.converted == done.reg.converted;
    LinkedBefore(side, done.reg, ResolveF(c, r, d).reg, m, cm);
  }

  lemma ResolveFaithfulFrom(side: Side, c: Context, r: Reg, d: string, m: Meaning, cm: Meaning)
    requires Setting(side, c, r, m, cm) && d in c.universe && (side.exact ==> !IsAnyJson(d))
    requires RefsIn(Body(c, d), c.universe) && Linked(side, ResolveF(c, r, d).reg, m, cm)
    requires var p := PlanFor(c, r, d); !p.Known? ==>
      && (p.Component? ==> Started(r, p.start, p.name))
      && BodyDone(side, c, p.start, d, ConvertF(c, p.start, Body(c, d)), m, cm)
    ensures Faithful(side, c, Ref(Some(d)), ResolveF(c, r, d).out, m, cm)
    ensures NewBacked(side, c, r, ResolveF(c, r, d).reg, m, cm)
  {
    var p := PlanFor(c, r, d);
    if p.Known? {
      KnownFaithful(side, c, r, d, m, cm);
    } else if p.Component? {
      ComponentFaithful(side, c, r, d, p.name, p.start, ConvertF(c, p.start, Body(c, d)), m, cm);
    } else {
      InlineFaithful(side, c, r, d, p.start, ConvertF(c, p.start, Body(c, d)), m, cm);
    }
  }

  /** A reference to a linked component. */
  lemma RefFaithful(side: Side, c: Context, r: Reg, d: string, m: Meaning, cm: Meaning)
    requires d in r.converted && r.converted[d].ORef? && Linked(side, r, m, cm)
    ensures Faithful(side, c, Ref(Some(d)), r.converted[d], m, cm)
  {
    forall w ensures AgreesOn(side, Ref(Some(d)), r.converted[d], w, m, cm) {
      assert LinkedOn(side, d, r.converted[d].name, w, m, cm);
    }
  }

  lemma KnownFaithful(side: Side, c: Context, r: Reg, d: string, m: Meaning, cm: Meaning)
    requires Inv(c, r) && (side.exact ==> !IsAnyJson(d))
    requires var p := PlanFor(c, r, d); p.Known? && Linked(side, p.reg, m, cm)
    ensures var p := PlanFor(c, r, d);
      Faithful(side, c, Ref(Some(d)), p.out, m, cm) && NewBacked(side, c, r, p.reg, m, cm)
  {
    var p := PlanFor(c, r, d);
    if d in p.reg.converted {
      RefFaithful(side, c, p.reg, d, m, cm);
    } else {
      AnyJsonFaithful(c, d, m, cm);
    }
  }

  lemma AnyJsonFaithful(c: Context, d: string, m: Meaning, cm: Meaning)
    requires IsAnyJson(d)
    ensures Faithful(SOUND, c, Ref(Some(d)), ANY_JSON, m, cm)
  {
    assert "description" in ANY_JSON.notes;
    AnythingFaithful(SOUND, c, Ref(Some(d)), ANY_JSON, m, cm);
  }

  lemma ComponentFaithful(side: Side, c: Context, r: Reg, d: string, name: string, start: Reg, done: Result<Out>,
                          m: Meaning, cm: Meaning)
    requires d in c.universe && Started(r, start, name) && start.converted == r.converted[d := ORef(name)]
    requires Extends(start, done.reg) && Linked(side, done.reg, m, cm)
    requires Faithful(side, c, Body(c, d), done.out, m, cm) && NewBacked(side, c, start, done.reg, m, cm)
    ensures Faithful(side, c, Ref(Some(d)), ORef(name), m, cm)
    ensures NewBacked(side, c, r, Store(done.reg, name, done.out), m, cm)
  {
    var last := Store(done.reg, name, done.out);
    assert start.converted[d] == ORef(name);
    assert done.reg.converted[d] == ORef(name);
    RefFaithful(side, c, done.reg, d, m, cm);
    forall n | n in last.schemas && n !in r.schemas ensures Backed(side, c, last, n, m, cm) {
      if n != name {
        assert n in done.reg.schemas && n !in start.schemas;
        var e :| e in done.reg.converted && e in c.universe && done.reg.converted[e] == ORef(n)
                 && Faithful(side, c, Body(c, e), done.reg.schemas[n], m, cm);
        assert last.converted[e] == ORef(n);
      }
    }
  }

  lemma InlineFaithful(side: Side, c: Context, r: Reg, d: string, start: Reg, done: Result<Out>, m: Meaning, cm: Meaning)
    requires d in c.universe && ComponentNameFor(d).None? && start == r.(inlining := r.inlining + {d})
    requires DefinitionsOk(side.exact, c) && Solves(side, c, m)
    requires Faithful(side, c, Body(c, d), done.out, m, cm) && NewBacked(side, c, start, done.reg, m, cm)
    ensures Faithful(side, c, Ref(Some(d)), done.out, m, cm)
    ensures NewBacked(side, c, r, done.reg.(inlining := done.reg.inlining - {d}), m, cm)
  {
    forall w ensures AgreesOn(side, Ref(Some(d)), done.out, w, m, cm) {
      assert AgreesOn(side, Body(c, d), done.out, w, m, cm);
    }
    InlineLooks(c, d);
    var last := done.reg.(inlining := done.reg.inlining - {d});
    forall n | n in last.schemas && n !in r.schemas ensures Backed(side, c, last, n, m, cm) {
      var e :| e in done.reg.converted && e in c.universe && done.reg.converted[e] == ORef(n)
               && Faithful(side, c, Body(c, e), done.reg.schemas[n], m, cm);
      assert last.converted[e] == ORef(n);
    }
  }
}
