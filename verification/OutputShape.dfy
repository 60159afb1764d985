/**
  What holds of every object in the output, at any depth: OpenAPI 3.0 knows neither type lists nor the type
  `null`; an `allOf` of plain objects is merged; an enum has no null and the type of its values.
  (`const`, tuple `items` and dropped keys are not even expressible in `Out`.)
*/
module OutputShape {
  import opened Options
  import opened Sequences
  import opened JsonSchema
  import opened OpenApi
  import opened SchemaRewrite
  import opened SchemaMeaning
  import opened ObjectRewrite

  // ----- at every depth -----

  /** `p` holds of this object and of every one below it. */
  predicate Deep(p: Out -> bool, o: Out)
    decreases o, 1
  {
    o.ONode? ==> p(o) && DeepKids(p, o)
  }

  predicate DeepKids(p: Out -> bool, o: Out)
    requires o.ONode?
    decreases o, 0
  {
    && DeepProps(p, o.props)
    && (o.items.ItemsOf? ==> Deep(p, o.items.value))
    && (o.additional.AddSchema? ==> Deep(p, o.additional.schema))
    && DeepVariants(p, o.anyOf)
    && DeepVariants(p, o.oneOf)
    && DeepVariants(p, o.allOf)
  }

  predicate DeepProps(p: Out -> bool, props: PropsKw)
    decreases props, 0
  {
    props.Props? ==> forall k | k in props.value :: Deep(p, props.value[k])
  }

  predicate DeepVariants(p: Out -> bool, vs: Variants)
    decreases vs, 0
  {
    vs.Variants? ==> forall i | 0 <= i < |vs.list| :: Deep(p, vs.list[i])
  }

  /** Objects that say nothing, or only `oneOf`, satisfy it. */
  ghost predicate Tolerant(p: Out -> bool)
  {
    p(EMPTY) && forall vs :: p(EMPTY.(oneOf := vs))
  }

  lemma NoKids(p: Out -> bool, o: Out)
    requires o.ONode? && o.props.NoProps? && o.items.NoItems? && o.additional.AddNone?
    requires DeepVariants(p, o.anyOf) && DeepVariants(p, o.oneOf) && DeepVariants(p, o.allOf)
    ensures DeepKids(p, o)
  {
  }

  /** Objects with the same subschemas. */
  lemma SameKids(p: Out -> bool, a: Out, b: Out)
    requires a.ONode? && b.ONode? && DeepKids(p, a)
    requires a.props == b.props && a.items == b.items && a.additional == b.additional
    requires a.anyOf == b.anyOf && a.oneOf == b.oneOf && a.allOf == b.allOf
    ensures DeepKids(p, b)
  {
  }

  lemma AssignDeep(p: Out -> bool, d: Out, e: Entry, outs: seq<Out>)
    requires d.ONode? && DeepKids(p, d) && Tolerant(p)
    requires e.Group? ==> |outs| == |e.kids| && DeepVariants(p, Variants(outs))
    ensures DeepKids(p, Assign(d, e, outs))
  {
    match e
    case Leaf(AdditionalBool(_)) =>
    case Leaf(_) => SameKids(p, d, Assign(d, e, outs));
    case Group(_, _) => GroupDeep(p, d, e, outs);
  }

  lemma GroupDeep(p: Out -> bool, d: Out, e: Entry, outs: seq<Out>)
    requires d.ONode? && DeepKids(p, d) && Tolerant(p) && e.Group? && |outs| == |e.kids| && DeepVariants(p, Variants(outs))
    ensures DeepKids(p, Assign(d, e, outs))
  {
    match e.kw
    case Properties =>
      PropsOfHas(e.kids, outs);
      PropsDeep(p, e.kids, outs);
    case Tuple => NoKids(p, EMPTY.(oneOf := Variants(outs)));
    case _ =>
      NoKids(p, EMPTY);
      if outs != [] { assert Deep(p, Variants(outs).list[0]); }
  }

  lemma PropsDeep(p: Out -> bool, kids: seq<Kid>, outs: seq<Out>)
    requires |kids| == |outs| && DeepVariants(p, Variants(outs))
    ensures DeepProps(p, Props(PropsOf(kids, outs)))
  {
    PropsOfHas(kids, outs);
    forall k | k in PropsOf(kids, outs) ensures Deep(p, PropsOf(kids, outs)[k]) {
      var i :| 0 <= i < |kids| && kids[i].name == k && PropsOf(kids, outs)[k] == outs[i];
      assert Deep(p, Variants(outs).list[i]);
    }
  }

  lemma {:induction false} DraftDeep(p: Out -> bool, es: seq<Entry>, outss: seq<seq<Out>>)
    requires Fits(es, outss) && Tolerant(p)
    requires forall i | 0 <= i < |es| && es[i].Group? :: DeepVariants(p, Variants(outss[i]))
    ensures DeepKids(p, Draft(es, outss))
  {
    if es == [] {
      NoKids(p, EMPTY);
    } else {
      var n := |es| - 1;
      DraftDeep(p, es[..n], outss[..n]);
      AssignDeep(p, Draft(es[..n], outss[..n]), es[n], outss[n]);
    }
  }

  lemma {:induction false} FilterDeep(p: Out -> bool, os: seq<Out>)
    requires DeepVariants(p, Variants(os))
    ensures DeepVariants(p, Variants(Filter(os, NotOnlyNull)))
  {
    if os != [] {
      assert Deep(p, Variants(os).list[0]);
      forall i | 0 <= i < |os| - 1 ensures Deep(p, os[1..][i]) { assert Deep(p, Variants(os).list[i + 1]); }
      FilterDeep(p, os[1..]);
      var rest := Filter(os[1..], NotOnlyNull);
      forall i | 0 <= i < |rest| ensures Deep(p, rest[i]) { assert Deep(p, Variants(rest).list[i]); }
    }
  }

  lemma MergesDeep(p: Out -> bool, parts: seq<Out>, beside: Option<set<string>>, o: Out)
    requires Merges(parts, beside, o) && DeepVariants(p, Variants(parts))
    ensures DeepProps(p, o.props)
  {
    forall name | name in o.props.value ensures Deep(p, o.props.value[name]) {
      var i :| 0 <= i < |parts| && HasProperty(parts[i], name);
      var k := LastWith(parts, name, i);
      assert Deep(p, Variants(parts).list[k]);
      assert parts[k].ONode? && DeepKids(p, parts[k]);
      assert DeepProps(p, parts[k].props);
    }
  }

  lemma {:induction false} LastWith(parts: seq<Out>, name: string, i: nat) returns (k: nat)
    requires i < |parts| && HasProperty(parts[i], name)
    ensures LastPart(parts, k, name)
    decreases |parts| - i
  {
    if j :| i < j < |parts| && HasProperty(parts[j], name) {
      k := LastWith(parts, name, j);
    } else {
      k := i;
    }
  }

  lemma SpreadsDeep(p: Out -> bool, x: Out, d: Out, o: Out)
    requires d.ONode? && Spreads(x, d, o) && Deep(p, x) && DeepKids(p, d)
    ensures DeepKids(p, o)
  {
    if x.ORef? { NoKids(p, EMPTY.(allOf := Variants([x]))); }
  }

  lemma PlainlyDeep(p: Out -> bool, d: Out, o: Out)
    requires d.ONode? && Plainly(d, o) && DeepKids(p, d)
    ensures DeepKids(p, o)
  {
    if d.anyOf.Variants? { FilterDeep(p, d.anyOf.list); }
    if d.oneOf.Variants? { FilterDeep(p, d.oneOf.list); }
    if Parts(d.allOf) { MergesDeep(p, d.allOf.list, d.required, o); }
  }

  /** The types a type list is split into: not where one type is left beside null. */
  function SplitInto(d: Out): seq<Type>
    requires d.ONode?
  {
    if d.typ.Many? && |Filter(d.typ.ts, NotNullType)| != 1 then Filter(d.typ.ts, NotNullType) else []
  }

  /** What is below the returned object is from below the draft, or one of its types. */
  lemma RewrittenDeep(p: Out -> bool, d: Out, o: Out)
    requires d.ONode? && DeepKids(p, d) && Rewritten(d, o)
    requires forall t | t in SplitInto(d) :: p(d.(typ := One(t)))
    ensures o.ONode? && DeepKids(p, o)
  {
    if d.typ.Many? && |Filter(d.typ.ts, NotNullType)| != 1 {
      var ts := Filter(d.typ.ts, NotNullType);
      forall i | 0 <= i < |ts| ensures Deep(p, o.oneOf.list[i]) {
        assert ts[i] in SplitInto(d);
        assert DeepKids(p, d.(typ := One(ts[i])));
      }
      NoKids(p, o);
    } else {
      var one := if d.typ.Many?
                 then d.(typ := One(Filter(d.typ.ts, NotNullType)[0]), nullable := d.nullable || TNull in d.typ.ts) else d;
      assert DeepKids(p, one);
      OneDeep(p, one, o);
    }
  }

  lemma OneDeep(p: Out -> bool, one: Out, o: Out)
    requires one.ONode? && DeepKids(p, one)
    requires if Lone(one.anyOf) then Spreads(Filter(one.anyOf.list, NotOnlyNull)[0], one.(anyOf := NoVariants), o)
             else if Lone(one.oneOf) then
               Spreads(Filter(one.oneOf.list, NotOnlyNull)[0], one.(anyOf := Others(one.anyOf), oneOf := NoVariants), o)
             else Plainly(one, o)
    ensures o.ONode? && DeepKids(p, o)
  {
    if one.anyOf.Variants? { FilterDeep(p, one.anyOf.list); }
    if one.oneOf.Variants? { FilterDeep(p, one.oneOf.list); }
    if Lone(one.anyOf) {
      assert Deep(p, Variants(Filter(one.anyOf.list, NotOnlyNull)).list[0]);
      SpreadsDeep(p, Filter(one.anyOf.list, NotOnlyNull)[0], one.(anyOf := NoVariants), o);
    } else if Lone(one.oneOf) {
      assert Deep(p, Variants(Filter(one.oneOf.list, NotOnlyNull)).list[0]);
      SpreadsDeep(p, Filter(one.oneOf.list, NotOnlyNull)[0], one.(anyOf := Others(one.anyOf), oneOf := NoVariants), o);
    } else {
      PlainlyDeep(p, one, o);
    }
  }

  // ----- no type list and no `type: "null"` -----

  predicate CleanType(t: TypeKw)
  {
    !t.Many? && t != One(TNull)
  }

  predicate CleanNode(o: Out)
  {
    o.ONode? ==> CleanType(o.typ)
  }

  predicate Clean(o: Out)
  {
    Deep(CleanNode, o)
  }

  /** One variant is left beside null: the object is returned early. */
  predicate EarlyReturn(o: Out)
    requires o.ONode?
  {
    Lone(o.anyOf) || Lone(o.oneOf)
  }

  lemma {:induction false} FilteredTypes(ts: seq<Type>)
    ensures forall t :: t in Filter(ts, NotNullType) <==> t in ts && t != TNull
  {
    if ts != [] {
      FilteredTypes(ts[1..]);
      assert ts == [ts[0]] + ts[1..];
    }
  }

  /** The type of the returned object. */
  lemma FinishType(d: Out, o: Out)
    requires d.ONode? && DeepKids(CleanNode, d) && Rewritten(d, o)
    ensures o.ONode? && (CleanType(o.typ) <==> !(d.typ == One(TNull) && EarlyReturn(d)))
  {
    if d.typ.Many? { FilteredTypes(d.typ.ts); }
    if d.typ.Many? && |Filter(d.typ.ts, NotNullType)| == 1 {
      assert Filter(d.typ.ts, NotNullType)[0] in Filter(d.typ.ts, NotNullType);
    }
    if Lone(d.anyOf) { LoneSatisfies(CleanNode, d.anyOf); }
    if Lone(d.oneOf) { LoneSatisfies(CleanNode, d.oneOf); }
  }

  /**
    The rewrites leave no type list, and `type: "null"` exactly when the early return copies it from an
    object that has both `type: "null"` and a nullable union.
  */
  lemma FinishClean(d: Out)
    requires d.ONode? && DeepKids(CleanNode, d)
    ensures Clean(Finish(d)) <==> !(d.typ == One(TNull) && EarlyReturn(d))
  {
    FinishComes(d);
    if d.typ.Many? { FilteredTypes(d.typ.ts); }
    RewrittenDeep(CleanNode, d, Finish(d));
    FinishType(d, Finish(d));
  }

  // ----- no `allOf` of plain objects -----

  /** There is no `allOf` of two or more plain objects. */
  predicate MergedNode(o: Out)
  {
    o.ONode? ==> !Parts(o.allOf)
  }

  lemma LoneSatisfies(p: Out -> bool, vs: Variants)
    requires Lone(vs) && DeepVariants(p, vs)
    ensures var x := Filter(vs.list, NotOnlyNull)[0]; x.ONode? ==> p(x)
  {
    FilterDeep(p, vs.list);
    assert Deep(p, Variants(Filter(vs.list, NotOnlyNull)).list[0]);
  }

  /**
    An `allOf` of plain objects is left in the object exactly by the early return, beside a union with one variant
    and null, and then only if no list of types is split.
  */
  lemma AllOfLeftExactly(d: Out)
    requires d.ONode? && DeepKids(MergedNode, d)
    ensures Finish(d).ONode?
    ensures Parts(Finish(d).allOf) <==>
            Parts(d.allOf) && EarlyReturn(d) && (d.typ.Many? ==> |Filter(d.typ.ts, NotNullType)| == 1)
  {
    FinishComes(d);
    if Lone(d.anyOf) { LoneSatisfies(MergedNode, d.anyOf); }
    if Lone(d.oneOf) { LoneSatisfies(MergedNode, d.oneOf); }
  }

  /** No such `allOf` is left at any depth, unless it stands beside such a union or a list of types. */
  lemma FinishMerged(d: Out)
    requires d.ONode? && DeepKids(MergedNode, d) && (EarlyReturn(d) || SplitInto(d) != [] ==> d.allOf.NoVariants?)
    ensures Deep(MergedNode, Finish(d))
  {
    FinishComes(d);
    RewrittenDeep(MergedNode, d, Finish(d));
    AllOfLeftExactly(d);
  }

  // ----- typed enums -----

  /** The values are not all of one scalar type. */
  predicate Mixed(vs: seq<Json>)
  {
    (exists v | v in vs :: !v.JStr?) && (exists v | v in vs :: !v.JBool?) && (exists v | v in vs :: !v.JNum?)
  }

  /** An enum has no null, and the scalar type that its values have. */
  predicate TypedNode(o: Out)
  {
    o.ONode? && o.enum.Some? ==> JNull !in o.enum.value && (o.typ.NoType? ==> o.enum.value == [] || Mixed(o.enum.value))
  }

  lemma {:induction false} FilteredValues(vs: seq<Json>)
    ensures JNull !in Filter(vs, NotNull)
  {
    if vs != [] { FilteredValues(vs[1..]); }
  }

  lemma PlainlyTyped(d: Out, o: Out)
    requires d.ONode? && Plainly(d, o) && !d.typ.Many?
    ensures TypedNode(o)
  {
    if d.enum.Some? { FilteredValues(d.enum.value); }
  }

  lemma SpreadsTyped(x: Out, d: Out, o: Out)
    requires d.ONode? && Spreads(x, d, o) && (x.ONode? ==> TypedNode(x)) && d.enum.None?
    ensures TypedNode(o)
  {
  }

  /** So it is with every enum that stands beside no such union and no list of types. */
  lemma FinishTyped(d: Out)
    requires d.ONode? && DeepKids(TypedNode, d) && (EarlyReturn(d) || SplitInto(d) != [] ==> d.enum.None?)
    ensures Deep(TypedNode, Finish(d))
  {
    FinishComes(d);
    RewrittenDeep(TypedNode, d, Finish(d));
    RewrittenTyped(d, Finish(d));
  }

  lemma RewrittenTyped(d: Out, o: Out)
    requires d.ONode? && DeepKids(TypedNode, d) && (EarlyReturn(d) || SplitInto(d) != [] ==> d.enum.None?)
    requires Rewritten(d, o)
    ensures TypedNode(o)
  {
    if !(d.typ.Many? && |Filter(d.typ.ts, NotNullType)| != 1) {
      var one := if d.typ.Many?
                 then d.(typ := One(Filter(d.typ.ts, NotNullType)[0]), nullable := d.nullable || TNull in d.typ.ts) else d;
      if Lone(one.anyOf) {
        LoneSatisfies(TypedNode, one.anyOf);
        SpreadsTyped(Filter(one.anyOf.list, NotOnlyNull)[0], one.(anyOf := NoVariants), o);
      } else if Lone(one.oneOf) {
        LoneSatisfies(TypedNode, one.oneOf);
        SpreadsTyped(Filter(one.oneOf.list, NotOnlyNull)[0], one.(anyOf := Others(one.anyOf), oneOf := NoVariants), o);
      } else {
        PlainlyTyped(one, o);
      }
    }
  }
}
