/**
  References occur positively in an output: a `oneOf` in it has variants of types that no value shares. So the
  output accepts more when its references do.
*/
module OutputMono {
  import opened JsonSchema
  import opened OpenApi
  import opened SchemaRewrite
  import opened SchemaMeaning

  /** The variants have one type each, and no value has two of them. */
  predicate TypedApart(outs: seq<Out>)
  {
    && (forall i | 0 <= i < |outs| :: outs[i].ONode? && outs[i].typ.One? && !outs[i].nullable)
    && (forall i, j | 0 <= i < j < |outs| :: Disjoint(outs[i].typ.t, outs[j].typ.t))
  }

  predicate Steady(o: Out)
    decreases o, 1
  {
    o.ONode? ==> SteadyKids(o)
  }

  predicate SteadyKids(o: Out)
    requires o.ONode?
    decreases o, 0
  {
    && SteadyProps(o.props)
    && (o.items.ItemsOf? ==> Steady(o.items.value))
    && (o.additional.AddSchema? ==> Steady(o.additional.schema))
    && SteadyVariants(o.anyOf)
    && SteadyVariants(o.oneOf) && (o.oneOf.Variants? ==> TypedApart(o.oneOf.list))
    && SteadyVariants(o.allOf)
  }

  predicate SteadyProps(props: PropsKw)
    decreases props, 0
  {
    props.Props? ==> forall k | k in props.value :: Steady(props.value[k])
  }

  predicate SteadyVariants(vs: Variants)
    decreases vs, 0
  {
    vs.Variants? ==> forall i | 0 <= i < |vs.list| :: Steady(vs.list[i])
  }

  // ----- more references accept more -----

  lemma HasOneType(o: Out, v: Json, m: Meaning)
    requires o.ONode? && o.typ.One? && !o.nullable && OValid(o, v, m)
    ensures HasType(v, o.typ.t)
  {
  }

  lemma {:induction false} OutMono(o: Out, v: Json, m1: Meaning, m2: Meaning)
    requires Steady(o) && Below(m1, m2) && OValid(o, v, m1)
    ensures OValid(o, v, m2)
    decreases o, 1
  {
    if o.ONode? && !(o.nullable && v.JNull?) { KidsMono(o, v, m1, m2); }
  }

  lemma {:induction false} KidsMono(o: Out, v: Json, m1: Meaning, m2: Meaning)
    requires o.ONode? && SteadyKids(o) && Below(m1, m2) && Constraints(o, v, m1)
    ensures Constraints(o, v, m2)
    decreases o, 0
  {
    PropsMono(o.props, v, m1, m2);
    if v.JArr? && o.items.ItemsOf? {
      forall j | 0 <= j < |v.items| ensures OValid(o.items.value, v.items[j], m2) {
        OutMono(o.items.value, v.items[j], m1, m2);
      }
    }
    if v.JObj? && o.additional.AddSchema? {
      forall k | k in v.members && k !in OutNames(o) ensures OValid(o.additional.schema, v.members[k], m2) {
        OutMono(o.additional.schema, v.members[k], m1, m2);
      }
    }
    AnyOfMono(o.anyOf, v, m1, m2);
    OneOfMono(o.oneOf, v, m1, m2);
    AllOfMono(o.allOf, v, m1, m2);
  }

  lemma {:induction false} PropsMono(props: PropsKw, v: Json, m1: Meaning, m2: Meaning)
    requires SteadyProps(props) && Below(m1, m2) && PropsOk(props, v, m1)
    ensures PropsOk(props, v, m2)
    decreases props, 0
  {
    if v.JObj? && props.Props? {
      forall k | k in props.value && k in v.members ensures OValid(props.value[k], v.members[k], m2) {
        OutMono(props.value[k], v.members[k], m1, m2);
      }
    }
  }

  lemma {:induction false} AnyOfMono(vs: Variants, v: Json, m1: Meaning, m2: Meaning)
    requires SteadyVariants(vs) && Below(m1, m2) && AnyOfOk(vs, v, m1)
    ensures AnyOfOk(vs, v, m2)
    decreases vs, 0
  {
    if vs.Variants? {
      var i :| 0 <= i < |vs.list| && OValid(vs.list[i], v, m1);
      OutMono(vs.list[i], v, m1, m2);
    }
  }

  lemma {:induction false} OneOfMono(vs: Variants, v: Json, m1: Meaning, m2: Meaning)
    requires SteadyVariants(vs) && (vs.Variants? ==> TypedApart(vs.list)) && Below(m1, m2) && OneOfOk(vs, v, m1)
    ensures OneOfOk(vs, v, m2)
    decreases vs, 0
  {
    if vs.Variants? {
      var i := OneOfElim(vs.list, v, m1);
      OutMono(vs.list[i], v, m1, m2);
      AtMostOne(vs.list, i, v, m2);
    }
  }

  /** Of variants typed apart no second one accepts a value. */
  lemma AtMostOne(outs: seq<Out>, i: nat, v: Json, m: Meaning)
    requires TypedApart(outs) && i < |outs| && OValid(outs[i], v, m)
    ensures OneOfOk(Variants(outs), v, m)
  {
    HasOneType(outs[i], v, m);
    forall j | 0 <= j < |outs| && j != i ensures !OValid(outs[j], v, m) {
      if OValid(outs[j], v, m) { HasOneType(outs[j], v, m); }
    }
    OneOfIntro(outs, i, v, m);
  }

  lemma {:induction false} AllOfMono(vs: Variants, v: Json, m1: Meaning, m2: Meaning)
    requires SteadyVariants(vs) && Below(m1, m2) && AllOfOk(vs, v, m1)
    ensures AllOfOk(vs, v, m2)
    decreases vs, 0
  {
    if vs.Variants? {
      forall i | 0 <= i < |vs.list| ensures OValid(vs.list[i], v, m2) { OutMono(vs.list[i], v, m1, m2); }
    }
  }

  // ----- the rewrites keep it -----

  predicate SameSubs(a: Out, b: Out)
    requires a.ONode? && b.ONode?
  {
    && a.props == b.props && a.items == b.items && a.additional == b.additional
    && a.anyOf == b.anyOf && a.oneOf == b.oneOf && a.allOf == b.allOf
  }

  lemma SameSteady(a: Out, b: Out)
    requires a.ONode? && b.ONode? && SteadyKids(a) && SameSubs(a, b)
    ensures SteadyKids(b)
  {
  }

  lemma NoSubs(o: Out)
    requires o.ONode? && o.props.NoProps? && o.items.NoItems? && o.additional.AddNone?
    requires SteadyVariants(o.anyOf) && o.oneOf.NoVariants? && SteadyVariants(o.allOf)
    ensures SteadyKids(o)
  {
  }

  lemma AssignSteady(d: Out, e: Entry, outs: seq<Out>)
    requires d.ONode? && SteadyKids(d) && (e.Group? ==> |outs| == |e.kids| && SteadyVariants(Variants(outs)))
    requires e.Group? ==> !e.kw.OneOf? && !e.kw.Tuple?
    ensures SteadyKids(Assign(d, e, outs))
  {
    if e.Group? { FirstSteady(outs); }
    match e
    case Leaf(AdditionalBool(_)) =>
    case Leaf(_) => SameSteady(d, Assign(d, e, outs));
    case Group(Properties, kids) => PropsOfHas(kids, outs);
    case Group(_, _) =>
  }

  lemma FirstSteady(outs: seq<Out>)
    requires SteadyVariants(Variants(outs))
    ensures Steady(FirstOr(outs))
  {
    NoSubs(EMPTY);
    if outs != [] { assert Steady(Variants(outs).list[0]); }
  }

  lemma {:induction false} DraftSteady(es: seq<Entry>, outss: seq<seq<Out>>)
    requires Fits(es, outss) && forall i | 0 <= i < |es| && es[i].Group? :: SteadyVariants(Variants(outss[i]))
    requires forall i | 0 <= i < |es| && es[i].Group? :: !es[i].kw.OneOf? && !es[i].kw.Tuple?
    ensures SteadyKids(Draft(es, outss))
  {
    if es == [] {
      NoSubs(EMPTY);
    } else {
      var n := |es| - 1;
      DraftSteady(es[..n], outss[..n]);
      AssignSteady(Draft(es[..n], outss[..n]), es[n], outss[n]);
    }
  }

  lemma VariantsSteady(d: Out, ts: seq<Type>)
    requires d.ONode? && !d.nullable && SteadyKids(d) && DisjointList(ts)
    ensures SteadyVariants(Variants(TypeVariants(d, ts))) && TypedApart(TypeVariants(d, ts))
  {
    var vs := TypeVariants(d, ts);
    forall i | 0 <= i < |vs| ensures Steady(vs[i]) { SameSteady(d, vs[i]); }
  }

  lemma SplitSteady(d: Out)
    requires d.ONode? && !d.nullable && SteadyKids(d) && (d.typ.Many? ==> DisjointList(d.typ.ts))
    ensures SteadyKids(SplitTypes(d))
  {
    if d.typ.Many? {
      var ts := NonNullTypes(d.typ.ts);
      NonNullTypesDisjoint(d.typ.ts);
      if |ts| == 1 {
        SameSteady(d, SplitTypes(d));
      } else {
        VariantsSteady(d, ts);
      }
    }
  }

  lemma PlainSteady(d: Out)
    requires PlainDraft(d) && SteadyKids(d) && (d.typ.Many? ==> DisjointList(d.typ.ts))
    ensures SteadyKids(Finish(d))
  {
    FinishPlain(d);
    SplitSteady(d);
    LateSubs(SplitTypes(d));
    SameSteady(SplitTypes(d), Finish(d));
  }

  lemma LateSubs(s: Out)
    requires s.ONode?
    ensures SameSubs(s, EnumKind(EnumNull(BareNull(s))))
  {
    assert SameSubs(s, BareNull(s)) && SameSubs(BareNull(s), EnumNull(BareNull(s)));
  }

  lemma NonNullSteady(os: seq<Out>)
    requires SteadyVariants(Variants(os))
    ensures SteadyVariants(Variants(NonNull(os)))
  {
    NonNullHas(os);
    var nn := NonNull(os);
    forall i | 0 <= i < |nn| ensures Steady(nn[i]) {
      assert nn[i] in nn;
      var j :| 0 <= j < |os| && os[j] == nn[i];
      assert Steady(Variants(os).list[j]);
    }
  }

  /** The one variant left, spread under an object without constraints. */
  lemma SpreadSteady(x: Out, o: Out)
    requires Steady(x) && o.ONode? && Core(o) == EMPTY
    ensures SteadyKids(MarkNullable(Spread(WithNullable(x), o)))
  {
    var w := WithNullable(x);
    if x.ORef? {
      assert SteadyVariants(Variants([x]));
      NoSubs(w);
    } else {
      SameSteady(x, w);
    }
    SameSteady(w, MarkNullable(Spread(w, o)));
  }

  lemma AnyOfSteady(d: Out, outs: seq<Out>)
    requires d.ONode? && Core(d) == EMPTY.(anyOf := Variants(outs)) && SteadyVariants(Variants(outs))
    ensures SteadyKids(Finish(d))
  {
    FinishAnyOf(d, outs);
    NonNullSteady(outs);
    NonNullHas(outs);
    if HasNull(outs) && |NonNull(outs)| == 1 {
      assert Steady(Variants(NonNull(outs)).list[0]);
      SpreadSteady(NonNull(outs)[0], d.(anyOf := NoVariants));
    } else {
      NoSubs(Finish(d));
    }
  }

  lemma MergedSteady(parts: seq<Out>)
    requires AllPlain(parts) && SteadyVariants(Variants(parts))
    ensures SteadyProps(Props(MergedProps(parts)))
  {
    MergedHas(parts);
    forall k | k in MergedProps(parts) ensures Steady(MergedProps(parts)[k]) {
      var i :| 0 <= i < |parts| && k in parts[i].props.value && MergedProps(parts)[k] == parts[i].props.value[k];
      assert Steady(Variants(parts).list[i]);
      assert SteadyKids(parts[i]);
      assert SteadyProps(parts[i].props);
    }
  }

  lemma AllOfSteady(d: Out, outs: seq<Out>)
    requires d.ONode? && Core(d) == EMPTY.(allOf := Variants(outs)) && SteadyVariants(Variants(outs))
    ensures SteadyKids(Finish(d))
  {
    FinishAllOf(d, outs);
    if AllPlain(outs) && |outs| > 1 {
      MergedSteady(outs);
    } else {
      NoSubs(Finish(d));
    }
  }

  /** One object of the fragment. */
  lemma NodeSteady(es: seq<Entry>, outss: seq<seq<Out>>)
    requires Fits(es, outss) && InFragment(es)
    requires forall i | 0 <= i < |es| && es[i].Group? :: SteadyVariants(Variants(outss[i]))
    ensures SteadyKids(Finish(Draft(es, outss)))
  {
    if i :| 0 <= i < |es| && Combinator(es[i]) {
      DraftCombinator(es, outss, i);
      if es[i].kw.AnyOf? { AnyOfSteady(Draft(es, outss), outss[i]); } else { AllOfSteady(Draft(es, outss), outss[i]); }
    } else {
      assert forall i | 0 <= i < |es| :: EntryInFragment(es[i]);
      DraftPlain(es, outss);
      DraftShape(es, outss);
      DraftSteady(es, outss);
      TypeListDisjoint(es);
      PlainSteady(Draft(es, outss));
    }
  }
}
