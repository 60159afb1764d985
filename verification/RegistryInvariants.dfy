/**
  What every conversion keeps: stored components stay, names are not shared by accident, and every
  component reference leads to a component that is stored or still being converted.
*/
module RegistryInvariants {
  import opened JsonSchema
  import opened OpenApi
  import opened SchemaRewrite
  import opened SchemaMeaning
  import opened ComponentNames
  import opened Fingerprint
  import opened Registry

  // ----- references in an output -----

  /** Every `$ref` in `o`, at any depth, names an element of `names`. */
  predicate RefsTo(o: Out, names: set<string>)
    decreases o, 1
  {
    match o
    case ORef(n) => n in names
    case ONode(_, _, _, _, _, _, _, _, _, _, _, _, _) => NodeRefsTo(o, names)
  }

  predicate NodeRefsTo(o: Out, names: set<string>)
    requires o.ONode?
    decreases o, 0
  {
    && PropsRefTo(o.props, names)
    && ItemsRefTo(o.items, names)
    && AdditionalRefTo(o.additional, names)
    && VariantsRefTo(o.anyOf, names)
    && VariantsRefTo(o.oneOf, names)
    && VariantsRefTo(o.allOf, names)
  }

  predicate PropsRefTo(props: PropsKw, names: set<string>)
    decreases props, 0
  {
    props.Props? ==> forall k | k in props.value :: RefsTo(props.value[k], names)
  }

  predicate ItemsRefTo(items: ItemsKw, names: set<string>)
    decreases items, 0
  {
    items.ItemsOf? ==> RefsTo(items.value, names)
  }

  predicate AdditionalRefTo(a: AdditionalKw, names: set<string>)
    decreases a, 0
  {
    a.AddSchema? ==> RefsTo(a.schema, names)
  }

  predicate VariantsRefTo(vs: Variants, names: set<string>)
    decreases vs, 0
  {
    vs.Variants? ==> forall i | 0 <= i < |vs.list| :: RefsTo(vs.list[i], names)
  }

  ghost predicate AllRefsTo(os: seq<Out>, names: set<string>)
  {
    VariantsRefTo(Variants(os), names)
  }

  lemma {:induction false} RefsToMore(o: Out, a: set<string>, b: set<string>)
    requires RefsTo(o, a) && a <= b
    ensures RefsTo(o, b)
    decreases o
  {
    if o.ONode? {
      assert NodeRefsTo(o, a);
      if o.props.Props? {
        assert PropsRefTo(o.props, a);
        forall k | k in o.props.value ensures RefsTo(o.props.value[k], b) { RefsToMore(o.props.value[k], a, b); }
      }
      if o.items.ItemsOf? { assert ItemsRefTo(o.items, a); RefsToMore(o.items.value, a, b); }
      if o.additional.AddSchema? { assert AdditionalRefTo(o.additional, a); RefsToMore(o.additional.schema, a, b); }
      VariantsRefToMore(o.anyOf, a, b);
      VariantsRefToMore(o.oneOf, a, b);
      VariantsRefToMore(o.allOf, a, b);
    }
  }

  lemma {:induction false} VariantsRefToMore(vs: Variants, a: set<string>, b: set<string>)
    requires VariantsRefTo(vs, a) && a <= b
    ensures VariantsRefTo(vs, b)
    decreases vs
  {
    if vs.Variants? {
      forall i | 0 <= i < |vs.list| ensures RefsTo(vs.list[i], b) { RefsToMore(vs.list[i], a, b); }
    }
  }

  lemma AllRefsToMore(os: seq<Out>, a: set<string>, b: set<string>)
    requires AllRefsTo(os, a) && a <= b
    ensures AllRefsTo(os, b)
  {
    VariantsRefToMore(Variants(os), a, b);
  }

  lemma PropsRefsTo(kids: seq<Kid>, outs: seq<Out>, names: set<string>)
    requires |kids| == |outs| && AllRefsTo(outs, names)
    ensures PropsRefTo(Props(PropsOf(kids, outs)), names)
  {
    PropsOfHas(kids, outs);
  }

  predicate SameChildren(a: Out, b: Out)
    requires a.ONode? && b.ONode?
  {
    && a.props == b.props && a.items == b.items && a.additional == b.additional
    && a.anyOf == b.anyOf && a.oneOf == b.oneOf && a.allOf == b.allOf
  }

  lemma EnumSteps(o: Out)
    requires o.ONode?
    ensures SameChildren(o, EnumNull(o)) && SameChildren(o, EnumKind(o)) && SameChildren(o, BareNull(o))
  {
  }

  /** Objects with the same subschemas have the same references. */
  lemma SameKids(a: Out, b: Out, names: set<string>)
    requires a.ONode? && b.ONode? && NodeRefsTo(a, names) && SameChildren(a, b)
    ensures NodeRefsTo(b, names)
  {
  }

  lemma OnlyVariantsRefTo(o: Out, names: set<string>)
    requires o.ONode? && o.props.NoProps? && o.items.NoItems? && o.additional.AddNone?
    requires VariantsRefTo(o.anyOf, names) && VariantsRefTo(o.oneOf, names) && VariantsRefTo(o.allOf, names)
    ensures NodeRefsTo(o, names)
  {
  }

  lemma TupleRefsTo(outs: seq<Out>, names: set<string>)
    requires AllRefsTo(outs, names)
    ensures ItemsRefTo(ItemsOf(EMPTY.(oneOf := Variants(outs))), names)
  {
    OnlyVariantsRefTo(EMPTY.(oneOf := Variants(outs)), names);
  }

  lemma AssignRefsTo(d: Out, e: Entry, outs: seq<Out>, names: set<string>)
    requires d.ONode? && NodeRefsTo(d, names) && (e.Group? ==> |outs| == |e.kids|) && AllRefsTo(outs, names)
    ensures NodeRefsTo(Assign(d, e, outs), names)
  {
    match e
    case Leaf(AdditionalBool(_)) =>
    case Leaf(_) => SameKids(d, Assign(d, e, outs), names);
    case Group(Properties, kids) => PropsRefsTo(kids, outs, names);
    case Group(Tuple, _) => TupleRefsTo(outs, names);
    case Group(Items, _) => assert RefsTo(FirstOr(outs), names);
    case Group(Additional, _) => assert RefsTo(FirstOr(outs), names);
    case Group(AnyOf, _) =>
    case Group(OneOf, _) =>
    case Group(AllOf, _) =>
  }

  ghost predicate AllFitRefsTo(outss: seq<seq<Out>>, names: set<string>)
  {
    forall i | 0 <= i < |outss| :: AllRefsTo(outss[i], names)
  }

  lemma {:induction false} DraftRefsTo(es: seq<Entry>, outss: seq<seq<Out>>, names: set<string>)
    requires Fits(es, outss) && AllFitRefsTo(outss, names)
    ensures NodeRefsTo(Draft(es, outss), names)
  {
    if es != [] {
      var n := |es| - 1;
      DraftRefsTo(es[..n], outss[..n], names);
      AssignRefsTo(Draft(es[..n], outss[..n]), es[n], outss[n], names);
    }
  }

  lemma NonNullRefsTo(os: seq<Out>, names: set<string>)
    requires AllRefsTo(os, names)
    ensures AllRefsTo(NonNull(os), names)
  {
    NonNullHas(os);
    var nn := NonNull(os);
    forall i | 0 <= i < |nn| ensures RefsTo(nn[i], names) {
      assert nn[i] in nn;
      var j :| 0 <= j < |os| && os[j] == nn[i];
      assert RefsTo(Variants(os).list[j], names);
    }
  }

  /** `withNullable` of the one variant left, spread under the rest of the object. */
  lemma MergeRefsTo(x: Out, o: Out, names: set<string>)
    requires RefsTo(x, names) && o.ONode? && NodeRefsTo(o, names)
    ensures NodeRefsTo(MarkNullable(Spread(WithNullable(x), o)), names)
  {
    NullableRefsTo(x, names);
    SpreadRefsTo(WithNullable(x), o, names);
    SameKids(Spread(WithNullable(x), o), MarkNullable(Spread(WithNullable(x), o)), names);
  }

  lemma NullableRefsTo(x: Out, names: set<string>)
    requires RefsTo(x, names)
    ensures NodeRefsTo(WithNullable(x), names)
  {
    if x.ORef? {
      assert VariantsRefTo(Variants([x]), names);
      OnlyVariantsRefTo(WithNullable(x), names);
    } else {
      SameKids(x, WithNullable(x), names);
    }
  }

  lemma SpreadRefsTo(a: Out, b: Out, names: set<string>)
    requires a.ONode? && b.ONode? && NodeRefsTo(a, names) && NodeRefsTo(b, names)
    ensures NodeRefsTo(Spread(a, b), names)
  {
  }

  lemma DropNullAnyOfRefsTo(o: Out, names: set<string>)
    requires o.ONode? && NodeRefsTo(o, names)
    ensures NodeRefsTo(DropNullAnyOf(o).o, names)
  {
    if o.anyOf.Variants? {
      var nn := NonNull(o.anyOf.list);
      NonNullRefsTo(o.anyOf.list, names);
      if |nn| == 1 { MergeRefsTo(nn[0], o.(anyOf := NoVariants), names); }
    }
  }

  lemma DropNullOneOfRefsTo(o: Out, names: set<string>)
    requires o.ONode? && NodeRefsTo(o, names)
    ensures NodeRefsTo(DropNullOneOf(o).o, names)
  {
    if o.oneOf.Variants? {
      var nn := NonNull(o.oneOf.list);
      NonNullRefsTo(o.oneOf.list, names);
      if |nn| == 1 { MergeRefsTo(nn[0], o.(oneOf := NoVariants), names); }
    }
  }

  lemma SplitRefsTo(o: Out, names: set<string>)
    requires o.ONode? && NodeRefsTo(o, names)
    ensures NodeRefsTo(SplitTypes(o), names)
  {
    if o.typ.Many? && |NonNullTypes(o.typ.ts)| == 1 {
      SameKids(o, SplitTypes(o), names);
    } else if o.typ.Many? {
      var vs := TypeVariants(o, NonNullTypes(o.typ.ts));
      forall i | 0 <= i < |vs| ensures RefsTo(vs[i], names) {
        SameKids(o, vs[i], names);
      }
      assert VariantsRefTo(Variants(vs), names);
    }
  }

  lemma MergedRefsTo(parts: seq<Out>, names: set<string>)
    requires AllPlain(parts) && AllRefsTo(parts, names)
    ensures PropsRefTo(Props(MergedProps(parts)), names)
  {
    MergedHas(parts);
    forall k | k in MergedProps(parts) ensures RefsTo(MergedProps(parts)[k], names) {
      var i :| 0 <= i < |parts| && k in parts[i].props.value && MergedProps(parts)[k] == parts[i].props.value[k];
      assert RefsTo(Variants(parts).list[i], names);
      assert NodeRefsTo(parts[i], names);
      assert PropsRefTo(parts[i].props, names);
    }
  }

  lemma FlattenRefsTo(o: Out, names: set<string>)
    requires o.ONode? && NodeRefsTo(o, names)
    ensures NodeRefsTo(FlattenAllOf(o), names)
  {
    if o.allOf.Variants? && AllPlain(o.allOf.list) {
      MergedRefsTo(o.allOf.list, names);
    }
  }

  lemma LateRefsTo(o: Out, names: set<string>)
    requires o.ONode? && NodeRefsTo(o, names)
    ensures NodeRefsTo(Late(o), names)
  {
    var b := BareNull(o);
    EnumSteps(o);
    EnumSteps(FlattenAllOf(b));
    EnumSteps(EnumNull(FlattenAllOf(b)));
    SameKids(o, b, names);
    FlattenRefsTo(b, names);
    var e := EnumNull(FlattenAllOf(b));
    SameKids(FlattenAllOf(b), e, names);
    SameKids(e, EnumKind(e), names);
  }

  /** The rewrites invent no reference. */
  lemma FinishRefsTo(d: Out, names: set<string>)
    requires d.ONode? && NodeRefsTo(d, names)
    ensures RefsTo(Finish(d), names)
  {
    var s0 := SplitTypes(d);
    SplitRefsTo(d, names);
    var s1 := DropNullAnyOf(s0).o;
    DropNullAnyOfRefsTo(s0, names);
    var s2 := DropNullOneOf(s1).o;
    DropNullOneOfRefsTo(s1, names);
    LateRefsTo(s2, names);
    assert Finish(d) in {s1, s2, Late(s2)};
    assert NodeRefsTo(Finish(d), names);
  }

  // ----- the invariant -----

  ghost predicate NumberedWithin(name: string, lo: nat, hi: nat)
  {
    exists k: nat | lo < k <= hi :: name == AnonymousName(k)
  }

  /** No definition, and no component that was there before, is itself named `Anonymous<digits>`. */
  ghost predicate NoAnonNames(c: Context)
  {
    && (forall d | d in c.universe && ComponentNameFor(d).Some? :: !AnonLike(ComponentNameFor(d).value))
    && (forall n | n in c.swaggerOwned :: !AnonLike(n))
  }

  function Mark(c: Context, d: string): (string, Schema)
    requires ComponentNameFor(d).Some?
  {
    (ComponentNameFor(d).value, Strip(Body(c, d)))
  }

  /** Why the definition `d` is converted to the component `name`. */
  ghost predicate Justified(c: Context, r: Reg, d: string, name: string)
  {
    match ComponentNameFor(d)
    case Some(nice) =>
      if nice in c.swaggerOwned then name == nice
      else Mark(c, d) in r.byFingerprint && r.byFingerprint[Mark(c, d)] == ORef(name)
    case None => NumberedWithin(name, 0, r.anon)
  }

  ghost function Targets(r: Reg): set<string>
  {
    set d | d in r.converted && r.converted[d].ORef? :: r.converted[d].name
  }

  ghost function Reserved(r: Reg): set<string>
  {
    r.schemas.Keys + Targets(r)
  }

  ghost predicate NamesOk(c: Context, r: Reg)
  {
    && c.swaggerOwned <= r.schemas.Keys
    && (forall n | n in r.schemas && AnonLike(n) :: NumberedWithin(n, 0, r.anon))
  }

  ghost predicate ConvertedOk(c: Context, r: Reg)
  {
    forall d | d in r.converted ::
      d in c.universe && !IsAnyJson(d) && r.converted[d].ORef? && Justified(c, r, d, r.converted[d].name)
  }

  /** Two fingerprints never share a component, and a fingerprint's component is stored. */
  ghost predicate MarksOk(c: Context, r: Reg)
  {
    && (forall p | p in r.byFingerprint :: r.byFingerprint[p].ORef?
          && r.byFingerprint[p].name in r.schemas.Keys - c.swaggerOwned && !AnonLike(r.byFingerprint[p].name))
    && (forall p, q | p in r.byFingerprint && q in r.byFingerprint && r.byFingerprint[p] == r.byFingerprint[q] :: p == q)
  }

  /** Two anonymous definitions never share a component. */
  ghost predicate AnonymousApart(r: Reg)
  {
    forall d, e | d in r.converted && e in r.converted && ComponentNameFor(d).None? && ComponentNameFor(e).None?
                  && r.converted[d] == r.converted[e] :: d == e
  }

  ghost predicate StoredOk(r: Reg)
  {
    forall n | n in r.schemas :: RefsTo(r.schemas[n], Reserved(r))
  }

  ghost predicate Inv(c: Context, r: Reg)
  {
    NamesOk(c, r) && ConvertedOk(c, r) && MarksOk(c, r) && AnonymousApart(r) && StoredOk(r)
  }

  /** `b` extends `a` with the same values. */
  ghost predicate Grows<K, V>(a: map<K, V>, b: map<K, V>)
  {
    forall k | k in a :: k in b && a[k] == b[k]
  }

  /** A new fingerprint is given a new component. */
  ghost predicate MarksNew(r: Reg, r': Reg)
  {
    forall p | p in r'.byFingerprint && p !in r.byFingerprint ::
      r'.byFingerprint[p].ORef? && r'.byFingerprint[p].name !in r.schemas
  }

  /** From one state to a later one. */
  ghost predicate Extends(r: Reg, r': Reg)
  {
    && r'.inlining == r.inlining
    && r.anon <= r'.anon
    && Grows(r.converted, r'.converted)
    && Grows(r.byFingerprint, r'.byFingerprint)
    && Grows(r.schemas, r'.schemas)
    && MarksNew(r, r')
    && (forall n | n in r'.schemas && n !in r.schemas && AnonLike(n) :: NumberedWithin(n, r.anon, r'.anon))
    && Targets(r') <= r'.schemas.Keys + Targets(r)
  }

  lemma ExtendsReserved(r: Reg, r': Reg)
    requires Extends(r, r')
    ensures Reserved(r) <= Reserved(r')
  {
    forall n | n in Targets(r) ensures n in Targets(r') {
      var d :| d in r.converted && r.converted[d].ORef? && r.converted[d].name == n;
      assert r'.converted[d] == r.converted[d];
    }
  }

  lemma ExtendsTransitive(r: Reg, r1: Reg, r2: Reg)
    requires Extends(r, r1) && Extends(r1, r2)
    ensures Extends(r, r2)
  {
    forall n | n in r2.schemas && n !in r.schemas && AnonLike(n) ensures NumberedWithin(n, r.anon, r2.anon) {
      if n in r1.schemas {
        var k: nat :| r.anon < k <= r1.anon && n == AnonymousName(k);
      } else {
        var k: nat :| r1.anon < k <= r2.anon && n == AnonymousName(k);
      }
    }
  }
}
