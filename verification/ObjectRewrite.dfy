/**
  What one translated object is, field by field, without the steps that make it: which keyword each key comes
  from, and how a type list, null variants and an `allOf` of plain objects show in the result.
*/
module ObjectRewrite {
  import opened Options
  import opened Sequences
  import opened JsonSchema
  import opened OpenApi
  import opened SchemaRewrite
  import opened SchemaMeaning
  import opened Registry

  // ----- the object before it is rewritten -----

  /** The last entry of its key; `const` and `enum` are one key. */
  predicate Last(es: seq<Entry>, u: nat)
  {
    u < |es| && forall j | u < j < |es| :: Slot(es[j]) != Slot(es[u])
  }

  /** The last property of its name. */
  predicate LastNamed(kids: seq<Kid>, i: nat)
  {
    i < |kids| && forall j | i < j < |kids| :: kids[j].name != kids[i].name
  }

  /** The object has what the entry says. */
  ghost predicate Written(e: Entry, outs: seq<Out>, d: Out)
    requires d.ONode? && (e.Group? ==> |outs| == |e.kids|)
  {
    match e
    case Leaf(Type(t)) => d.typ == t
    case Leaf(Enum(vs)) => d.enum == Some(vs)
    case Leaf(Const(v)) => d.enum == Some([v])
    case Leaf(Required(rs)) => d.required.Some? && forall r :: r in d.required.value <==> r in rs
    case Leaf(AdditionalBool(b)) => d.additional == AddBool(b)
    case Leaf(Default(j)) => d.default == Some(j)
    case Leaf(Note(k, j)) => k in d.notes && d.notes[k] == j
    case Leaf(Other(k, j)) => k in d.others && d.others[k] == j
    case Leaf(Dropped(_, _)) => true
    case Group(Properties, kids) =>
      && d.props.Props? && d.props.value.Keys == KidNames(kids)
      && forall i: nat | LastNamed(kids, i) :: d.props.value[kids[i].name] == outs[i]
    case Group(Items, _) => d.items.ItemsOf? && (outs != [] ==> d.items.value == outs[0])
    case Group(Tuple, _) => d.items == ItemsOf(EMPTY.(oneOf := Variants(outs)))
    case Group(Additional, _) => d.additional.AddSchema? && (outs != [] ==> d.additional.schema == outs[0])
    case Group(AnyOf, _) => d.anyOf == Variants(outs)
    case Group(OneOf, _) => d.oneOf == Variants(outs)
    case Group(AllOf, _) => d.allOf == Variants(outs)
  }

  /** The object has what its entries say, and nothing else. */
  ghost predicate Carries(es: seq<Entry>, outss: seq<seq<Out>>, d: Out)
    requires Fits(es, outss)
  {
    d.ONode? && !d.nullable && AllWritten(es, outss, d) && OthersFree(es, d) && Sourced(es, d)
  }

  ghost predicate AllWritten(es: seq<Entry>, outss: seq<seq<Out>>, d: Out)
    requires Fits(es, outss) && d.ONode?
  {
    forall u: nat | Last(es, u) :: Written(es[u], outss[u], d)
  }

  predicate Writes(es: seq<Entry>, k: Key)
  {
    exists u | 0 <= u < |es| :: Slot(es[u]) == k
  }

  /** What no entry writes is missing. */
  ghost predicate OthersFree(es: seq<Entry>, d: Out)
    requires d.ONode?
  {
    forall k: Key | !k.KConst? && !Writes(es, k) :: Free(d, k)
  }

  ghost predicate HasDefault(es: seq<Entry>)
  {
    exists j :: Leaf(Default(j)) in es
  }

  ghost predicate HasNote(es: seq<Entry>, k: string)
  {
    exists j :: Leaf(Note(k, j)) in es
  }

  ghost predicate HasOther(es: seq<Entry>, k: string)
  {
    exists j :: Leaf(Other(k, j)) in es
  }

  /** Annotations and further assertions come from the entries. */
  ghost predicate Sourced(es: seq<Entry>, d: Out)
    requires d.ONode?
  {
    && (d.default.Some? ==> HasDefault(es))
    && (forall k | k in d.notes :: HasNote(es, k))
    && (forall k | k in d.others :: HasOther(es, k))
  }

  lemma {:induction false} PropsWritten(kids: seq<Kid>, outs: seq<Out>, i: nat)
    requires |kids| == |outs| && LastNamed(kids, i)
    ensures kids[i].name in PropsOf(kids, outs) && PropsOf(kids, outs)[kids[i].name] == outs[i]
  {
    var n := |kids| - 1;
    if i < n {
      assert kids[n].name != kids[i].name;
      assert LastNamed(kids[..n], i);
      PropsWritten(kids[..n], outs[..n], i);
    }
  }

  lemma AssignWrites(d: Out, e: Entry, outs: seq<Out>)
    requires d.ONode? && (e.Group? ==> |outs| == |e.kids|)
    ensures Written(e, outs, Assign(d, e, outs))
  {
    if e.Group? && e.kw.Properties? {
      PropsOfHas(e.kids, outs);
      forall i: nat | LastNamed(e.kids, i) ensures PropsOf(e.kids, outs)[e.kids[i].name] == outs[i] {
        PropsWritten(e.kids, outs, i);
      }
    }
  }

  lemma AssignKeepsWritten(d: Out, a: Entry, aouts: seq<Out>, e: Entry, outs: seq<Out>)
    requires d.ONode? && (a.Group? ==> |aouts| == |a.kids|) && (e.Group? ==> |outs| == |e.kids|)
    requires Slot(a) != Slot(e) && Written(e, outs, d)
    ensures Written(e, outs, Assign(d, a, aouts))
  {
    if a.Leaf? { LeafKeepsWritten(d, a.leaf, aouts, e, outs); } else { GroupKeepsWritten(d, a, aouts, e, outs); }
  }

  lemma LeafKeepsWritten(d: Out, l: LeafKw, aouts: seq<Out>, e: Entry, outs: seq<Out>)
    requires d.ONode? && (e.Group? ==> |outs| == |e.kids|)
    requires Slot(Leaf(l)) != Slot(e) && Written(e, outs, d)
    ensures Written(e, outs, Assign(d, Leaf(l), aouts))
  {
    match l { case Type(_) => case Enum(_) => case Const(_) => case Required(_) => case _ => }
  }

  lemma GroupKeepsWritten(d: Out, a: Entry, aouts: seq<Out>, e: Entry, outs: seq<Out>)
    requires d.ONode? && a.Group? && |aouts| == |a.kids| && (e.Group? ==> |outs| == |e.kids|)
    requires Slot(a) != Slot(e) && Written(e, outs, d)
    ensures Written(e, outs, Assign(d, a, aouts))
  {
    match a.kw { case Properties => case Items => case Tuple => case AnyOf => case _ => }
  }

  lemma {:induction false} DraftWritten(es: seq<Entry>, outss: seq<seq<Out>>)
    requires Fits(es, outss)
    ensures AllWritten(es, outss, Draft(es, outss))
  {
    if es != [] {
      DraftWritten(es[..|es| - 1], outss[..|es| - 1]);
      forall u: nat | Last(es, u) ensures Written(es[u], outss[u], Draft(es, outss)) { LastWritten(es, outss, u); }
    }
  }

  lemma LastWritten(es: seq<Entry>, outss: seq<seq<Out>>, u: nat)
    requires Fits(es, outss) && Last(es, u) && AllWritten(es[..|es| - 1], outss[..|es| - 1], Draft(es[..|es| - 1], outss[..|es| - 1]))
    ensures Written(es[u], outss[u], Draft(es, outss))
  {
    var n := |es| - 1;
    var d := Draft(es[..n], outss[..n]);
    if u < n {
      assert Last(es[..n], u) && es[..n][u] == es[u] && outss[..n][u] == outss[u];
      AssignKeepsWritten(d, es[n], outss[n], es[u], outss[u]);
    } else {
      AssignWrites(d, es[n], outss[n]);
    }
  }

  lemma {:induction false} DraftSourced(es: seq<Entry>, outss: seq<seq<Out>>)
    requires Fits(es, outss)
    ensures Sourced(es, Draft(es, outss))
  {
    if es != [] {
      var n := |es| - 1;
      DraftSourced(es[..n], outss[..n]);
      AssignSourced(es[..n], Draft(es[..n], outss[..n]), es[n], outss[n]);
      LastSplit(es);
    }
  }

  lemma DraftCarries(es: seq<Entry>, outss: seq<seq<Out>>)
    requires Fits(es, outss)
    ensures Carries(es, outss, Draft(es, outss))
  {
    DraftShape(es, outss);
    DraftWritten(es, outss);
    DraftSourced(es, outss);
    forall k: Key | !k.KConst? && !Writes(es, k) ensures Free(Draft(es, outss), k) {
      DraftFree(es, outss, k);
    }
  }

  lemma MoreEntries(es: seq<Entry>, e: Entry)
    ensures HasDefault(es) ==> HasDefault(es + [e])
    ensures forall k :: HasNote(es, k) ==> HasNote(es + [e], k)
    ensures forall k :: HasOther(es, k) ==> HasOther(es + [e], k)
    ensures e in es + [e]
  {
    assert forall x :: x in es ==> x in es + [e];
    assert (es + [e])[|es|] == e;
  }

  lemma AssignSourced(es: seq<Entry>, d: Out, e: Entry, outs: seq<Out>)
    requires d.ONode? && (e.Group? ==> |outs| == |e.kids|) && Sourced(es, d)
    ensures Sourced(es + [e], Assign(d, e, outs))
  {
    MoreEntries(es, e);
    match e
    case Leaf(Default(j)) => assert HasDefault(es + [e]);
    case Leaf(Note(k, j)) => assert HasNote(es + [e], k);
    case Leaf(Other(k, j)) => assert HasOther(es + [e], k);
    case _ => AssignAddsNothing(d, e, outs);
  }

  lemma AssignAddsNothing(d: Out, e: Entry, outs: seq<Out>)
    requires d.ONode? && (e.Group? ==> |outs| == |e.kids|)
    requires e.Leaf? ==> !e.leaf.Default? && !e.leaf.Note? && !e.leaf.Other?
    ensures var o := Assign(d, e, outs); o.default == d.default && o.notes == d.notes && o.others == d.others
  {
  }

  // ----- the object as it is returned -----

  predicate NotNullType(t: Type) { t != TNull }

  predicate NotNull(v: Json) { v != JNull }

  /** `null` and nothing else, written either way; a default aside. */
  predicate OnlyNull(o: Out)
  {
    && o.ONode? && o.enum.None? && o.props.NoProps? && o.required.None? && o.items.NoItems? && o.additional.AddNone?
    && o.anyOf.NoVariants? && o.oneOf.NoVariants? && o.allOf.NoVariants? && o.notes == map[] && o.others == map[]
    && (if o.nullable then o.typ.NoType? else o.typ == One(TNull))
  }

  predicate NotOnlyNull(o: Out) { !OnlyNull(o) }

  /** An object with properties, which may not be null. */
  predicate Part(o: Out)
  {
    o.ONode? && o.typ == One(TObject) && o.props.Props? && !o.nullable
  }

  predicate Parts(vs: Variants)
  {
    vs.Variants? && |vs.list| >= 2 && forall i | 0 <= i < |vs.list| :: Part(vs.list[i])
  }

  ghost predicate PartRequires(parts: seq<Out>, name: string)
  {
    exists i | 0 <= i < |parts| :: parts[i].ONode? && parts[i].required.Some? && name in parts[i].required.value
  }

  /** The property of the last part that has it. */
  predicate LastPart(parts: seq<Out>, i: nat, name: string)
  {
    && i < |parts| && HasProperty(parts[i], name)
    && forall j | i < j < |parts| :: !HasProperty(parts[j], name)
  }

  predicate HasProperty(o: Out, name: string)
  {
    o.ONode? && o.props.Props? && name in o.props.value
  }

  /**
    One object for the parts of an `allOf`: it has exactly their properties, each as the last part with it has it,
    and requires what one of them requires; if none requires anything, what stood beside the `allOf`.
  */
  ghost predicate Merges(parts: seq<Out>, beside: Option<set<string>>, o: Out)
  {
    && o.ONode? && o.typ == One(TObject) && o.allOf.NoVariants? && o.props.Props?
    && (forall name :: name in o.props.value <==> exists i | 0 <= i < |parts| :: HasProperty(parts[i], name))
    && (forall i: nat, name | LastPart(parts, i, name) :: o.props.value[name] == parts[i].props.value[name])
    && (if exists name :: PartRequires(parts, name)
        then o.required.Some? && forall name :: name in o.required.value <==> PartRequires(parts, name)
        else o.required == beside)
  }

  /** The scalar type all values have, if there is one and there are values. */
  ghost predicate TypedBy(enum: Option<seq<Json>>, typ: TypeKw)
  {
    var some := enum.Some? && enum.value != [];
    && (typ == One(TString) <==> some && forall v | v in enum.value :: v.JStr?)
    && (typ == One(TBoolean) <==> some && forall v | v in enum.value :: v.JBool?)
    && (typ == One(TNumber) <==> some && forall v | v in enum.value :: v.JNum?)
    && (typ == One(TString) || typ == One(TBoolean) || typ == One(TNumber) || typ.NoType?)
  }

  predicate HasOnlyNull(vs: Variants)
  {
    vs.Variants? && exists i | 0 <= i < |vs.list| :: OnlyNull(vs.list[i])
  }

  function Others(vs: Variants): Variants
  {
    if vs.NoVariants? then NoVariants else Variants(Filter(vs.list, NotOnlyNull))
  }

  /** One variant is left beside null. */
  predicate Lone(vs: Variants)
  {
    HasOnlyNull(vs) && |Filter(vs.list, NotOnlyNull)| == 1
  }

  /** The variant with what stands beside it: its own keys give way to those of the object, and it may be null. */
  ghost predicate Spreads(x: Out, d: Out, o: Out)
    requires d.ONode?
  {
    var base := if x.ORef? then EMPTY.(allOf := Variants([x])) else x;
    && o.ONode? && o.nullable
    && o.typ == (if d.typ.NoType? then base.typ else d.typ)
    && o.enum == (if d.enum.None? then base.enum else d.enum)
    && o.props == (if d.props.NoProps? then base.props else d.props)
    && o.required == (if d.required.None? then base.required else d.required)
    && o.items == (if d.items.NoItems? then base.items else d.items)
    && o.additional == (if d.additional.AddNone? then base.additional else d.additional)
    && o.anyOf == (if d.anyOf.NoVariants? then base.anyOf else d.anyOf)
    && o.oneOf == (if d.oneOf.NoVariants? then base.oneOf else d.oneOf)
    && o.allOf == (if d.allOf.NoVariants? then base.allOf else d.allOf)
    && o.default == (if d.default.None? then base.default else d.default)
    && o.notes.Keys == d.notes.Keys + base.notes.Keys && o.others.Keys == d.others.Keys + base.others.Keys
    && (forall k | k in o.notes :: o.notes[k] == if k in d.notes then d.notes[k] else base.notes[k])
    && (forall k | k in o.others :: o.others[k] == if k in d.others then d.others[k] else base.others[k])
  }

  /** No type list and no lone variant: what changes is the null in it, a merged `allOf`, and the type of an enum. */
  ghost predicate Plainly(d: Out, o: Out)
    requires d.ONode?
  {
    && o.ONode? && o.items == d.items && o.additional == d.additional && o.notes == d.notes && o.others == d.others
    && o.anyOf == Others(d.anyOf) && o.oneOf == Others(d.oneOf)
    && (o.nullable <==>
         || d.nullable || d.typ == One(TNull) || HasOnlyNull(d.anyOf) || HasOnlyNull(d.oneOf)
         || (d.enum.Some? && JNull in d.enum.value))
    && o.default == (if d.typ == One(TNull) then None else d.default)
    && o.enum == (if d.enum.None? then None else Some(Filter(d.enum.value, NotNull)))
    && (if Parts(d.allOf) then Merges(d.allOf.list, d.required, o)
        else
          && o.allOf == d.allOf && o.props == d.props && o.required == d.required
          && if d.typ.NoType? || d.typ == One(TNull) then TypedBy(o.enum, o.typ) else o.typ == d.typ)
  }

  /** What is returned for the object `d`. */
  ghost predicate Rewritten(d: Out, o: Out)
    requires d.ONode?
  {
    if d.typ.Many? && |Filter(d.typ.ts, NotNullType)| != 1 then
      var ts := Filter(d.typ.ts, NotNullType);
      && o.ONode? && o == EMPTY.(oneOf := o.oneOf, nullable := TNull in d.typ.ts)
      && o.oneOf.Variants? && |o.oneOf.list| == |ts|
      && forall i | 0 <= i < |ts| :: o.oneOf.list[i] == d.(typ := One(ts[i]))
    else
      var one := if d.typ.Many?
                 then d.(typ := One(Filter(d.typ.ts, NotNullType)[0]), nullable := d.nullable || TNull in d.typ.ts) else d;
      if Lone(one.anyOf) then Spreads(Filter(one.anyOf.list, NotOnlyNull)[0], one.(anyOf := NoVariants), o)
      else if Lone(one.oneOf) then
        Spreads(Filter(one.oneOf.list, NotOnlyNull)[0], one.(anyOf := Others(one.anyOf), oneOf := NoVariants), o)
      else Plainly(one, o)
  }

  // ----- the steps come to that -----

  lemma {:induction false} TypesFiltered(ts: seq<Type>)
    ensures NonNullTypes(ts) == Filter(ts, NotNullType)
    ensures |NonNullTypes(ts)| != |ts| <==> TNull in ts
  {
    NonNullTypesHas(ts);
    if ts != [] {
      TypesFiltered(ts[..|ts| - 1]);
      FilterLast(ts, NotNullType);
    }
  }

  lemma OnlyNullMeans(o: Out)
    ensures IsNullSchema(o) <==> OnlyNull(o)
  {
  }

  lemma {:induction false} NonNullFiltered(os: seq<Out>)
    ensures NonNull(os) == Filter(os, NotOnlyNull)
  {
    if os != [] {
      NonNullFiltered(os[..|os| - 1]);
      OnlyNullMeans(os[|os| - 1]);
      FilterLast(os, NotOnlyNull);
    }
  }

  lemma HasNullMeans(os: seq<Out>)
    ensures HasNull(os) <==> HasOnlyNull(Variants(os))
  {
    forall o ensures IsNullSchema(o) <==> OnlyNull(o) { OnlyNullMeans(o); }
  }

  lemma VariantsFiltered(os: seq<Out>)
    ensures NonNull(os) == Filter(os, NotOnlyNull)
    ensures |NonNull(os)| == |os| <==> !HasOnlyNull(Variants(os))
    ensures !HasOnlyNull(Variants(os)) ==> NonNull(os) == os
  {
    NonNullHas(os);
    NonNullFiltered(os);
    HasNullMeans(os);
  }

  lemma {:induction false} ValuesFiltered(vs: seq<Json>)
    ensures WithoutNull(vs) == Filter(vs, NotNull)
    ensures JNull !in vs ==> Filter(vs, NotNull) == vs
  {
    if vs != [] {
      ValuesFiltered(vs[..|vs| - 1]);
      FilterLast(vs, NotNull);
      assert vs == vs[..|vs| - 1] + [vs[|vs| - 1]];
    }
  }

  lemma {:induction false} PropsMerged(parts: seq<Out>, name: string)
    requires AllPlain(parts)
    ensures name in MergedProps(parts) <==> exists i | 0 <= i < |parts| :: HasProperty(parts[i], name)
  {
    if parts != [] {
      var n := |parts| - 1;
      PropsMerged(parts[..n], name);
      if name in parts[n].props.value { assert HasProperty(parts[n], name); }
      if name in MergedProps(parts[..n]) {
        var i :| 0 <= i < n && HasProperty(parts[..n][i], name);
        assert HasProperty(parts[i], name);
      }
      if i :| 0 <= i < n && HasProperty(parts[i], name) { assert HasProperty(parts[..n][i], name); }
    }
  }

  lemma {:induction false} LastMerged(parts: seq<Out>, i: nat, name: string)
    requires AllPlain(parts) && LastPart(parts, i, name)
    ensures name in MergedProps(parts) && MergedProps(parts)[name] == parts[i].props.value[name]
  {
    var n := |parts| - 1;
    if i < n {
      assert !HasProperty(parts[n], name);
      assert LastPart(parts[..n], i, name);
      LastMerged(parts[..n], i, name);
    }
  }

  lemma {:induction false} RequiredMerged(parts: seq<Out>)
    requires AllPlain(parts)
    ensures forall name :: name in MergedRequired(parts) <==> PartRequires(parts, name)
  {
    if parts != [] {
      var n := |parts| - 1;
      RequiredMerged(parts[..n]);
      forall name ensures name in MergedRequired(parts) <==> PartRequires(parts, name) {
        if name in MergedRequired(parts[..n]) {
          var i :| 0 <= i < n && parts[..n][i].ONode? && parts[..n][i].required.Some? && name in parts[..n][i].required.value;
          assert parts[i].required.Some? && name in parts[i].required.value;
        }
        if i :| 0 <= i < n && parts[i].ONode? && parts[i].required.Some? && name in parts[i].required.value {
          assert parts[..n][i] == parts[i];
        }
      }
    }
  }

  lemma MergedMerges(parts: seq<Out>, o: Out)
    requires o.ONode? && AllPlain(parts)
    ensures var flat := o.(allOf := NoVariants, typ := One(TObject), props := Props(MergedProps(parts)));
      Merges(parts, o.required, if MergedRequired(parts) != {} then flat.(required := Some(MergedRequired(parts))) else flat)
  {
    forall name ensures name in MergedProps(parts) <==> exists i | 0 <= i < |parts| :: HasProperty(parts[i], name) {
      PropsMerged(parts, name);
    }
    forall i: nat, name | LastPart(parts, i, name)
      ensures name in MergedProps(parts) && MergedProps(parts)[name] == parts[i].props.value[name]
    {
      LastMerged(parts, i, name);
    }
    RequiredMerged(parts);
    if name :| name in MergedRequired(parts) { assert PartRequires(parts, name); }
  }

  /** Flattening gives one object for the parts, and leaves everything else alone. */
  lemma FlattenMerges(o: Out)
    requires o.ONode?
    ensures var f := FlattenAllOf(o);
      && f == o.(allOf := f.allOf, typ := f.typ, props := f.props, required := f.required)
      && (Parts(o.allOf) ==> Merges(o.allOf.list, o.required, f))
      && (!Parts(o.allOf) ==> f == o)
  {
    if o.allOf.Variants? {
      assert (forall i | 0 <= i < |o.allOf.list| :: Part(o.allOf.list[i])) <==> AllPlain(o.allOf.list);
      if Parts(o.allOf) { MergedMerges(o.allOf.list, o); }
    }
  }

  lemma KindTypes(o: Out)
    requires o.ONode? && o.typ.NoType?
    ensures EnumKind(o) == o.(typ := EnumKind(o).typ) && TypedBy(o.enum, EnumKind(o).typ)
  {
    if o.enum.Some? && o.enum.value != [] { assert o.enum.value[0] in o.enum.value; }
  }

  lemma NoneOnlyNull(d: Out, ts: seq<Type>)
    requires d.ONode? && TNull !in ts
    ensures NonNull(TypeVariants(d, ts)) == TypeVariants(d, ts)
  {
    var vs := TypeVariants(d, ts);
    forall i | 0 <= i < |vs| ensures !IsNullSchema(vs[i]) { assert ts[i] in ts; }
    NonNullHas(vs);
  }

  /** A union over types is final. */
  lemma UnionStays(o: Out, vs: seq<Out>)
    requires o.ONode? && o == EMPTY.(oneOf := Variants(vs), nullable := o.nullable) && NonNull(vs) == vs
    ensures Finish(o) == o
  {
  }

  lemma SplitFinishes(d: Out)
    requires d.ONode? && d.typ.Many? && |NonNullTypes(d.typ.ts)| != 1
    ensures Finish(d) == Finish(SplitTypes(d))
  {
  }

  lemma SplitComes(d: Out)
    requires d.ONode? && d.typ.Many? && |Filter(d.typ.ts, NotNullType)| != 1
    ensures Rewritten(d, Finish(d))
  {
    var ts := NonNullTypes(d.typ.ts);
    TypesFiltered(d.typ.ts);
    NonNullTypesHas(d.typ.ts);
    NoneOnlyNull(d, ts);
    SplitFinishes(d);
    UnionStays(SplitTypes(d), TypeVariants(d, ts));
  }

  lemma AnyOfComes(o: Out)
    requires o.ONode?
    ensures DropNullAnyOf(o).Returned? <==> Lone(o.anyOf)
    ensures Lone(o.anyOf) ==> Spreads(Filter(o.anyOf.list, NotOnlyNull)[0], o.(anyOf := NoVariants), DropNullAnyOf(o).o)
    ensures !Lone(o.anyOf) ==>
              DropNullAnyOf(o).o == o.(anyOf := Others(o.anyOf), nullable := o.nullable || HasOnlyNull(o.anyOf))
  {
    if o.anyOf.Variants? { VariantsFiltered(o.anyOf.list); }
  }

  lemma OneOfComes(o: Out)
    requires o.ONode?
    ensures DropNullOneOf(o).Returned? <==> Lone(o.oneOf)
    ensures Lone(o.oneOf) ==> Spreads(Filter(o.oneOf.list, NotOnlyNull)[0], o.(oneOf := NoVariants), DropNullOneOf(o).o)
    ensures !Lone(o.oneOf) ==>
              DropNullOneOf(o).o == o.(oneOf := Others(o.oneOf), nullable := o.nullable || HasOnlyNull(o.oneOf))
  {
    if o.oneOf.Variants? { VariantsFiltered(o.oneOf.list); }
  }

  /** After the unions: the null type, the `allOf`, the `enum`. */
  lemma LateComes(d: Out, o: Out)
    requires d.ONode? && !d.typ.Many?
    requires o == d.(anyOf := Others(d.anyOf), oneOf := Others(d.oneOf),
                     nullable := d.nullable || HasOnlyNull(d.anyOf) || HasOnlyNull(d.oneOf))
    ensures Plainly(d, Late(o))
  {
    var b := BareNull(o);
    var f := FlattenAllOf(b);
    FlattenMerges(b);
    var e := EnumNull(f);
    if f.enum.Some? { ValuesFiltered(f.enum.value); }
    if e.typ.NoType? { KindTypes(e); }
    LateFields(b, f, e);
  }

  lemma LateFields(b: Out, f: Out, e: Out)
    requires b.ONode? && f == FlattenAllOf(b) && e == EnumNull(f)
    ensures EnumKind(e) == e.(typ := EnumKind(e).typ) && (!e.typ.NoType? ==> EnumKind(e) == e)
  {
  }

  lemma FinishComes(d: Out)
    requires d.ONode?
    ensures Rewritten(d, Finish(d))
  {
    if d.typ.Many? { TypesFiltered(d.typ.ts); }
    if d.typ.Many? && |Filter(d.typ.ts, NotNullType)| != 1 {
      SplitComes(d);
    } else {
      var one := SplitTypes(d);
      AnyOfComes(one);
      OneOfComes(DropNullAnyOf(one).o);
      if DropNullAnyOf(one).Go? && DropNullOneOf(DropNullAnyOf(one).o).Go? {
        LateComes(one, DropNullOneOf(DropNullAnyOf(one).o).o);
      }
    }
  }

  // ----- every converted object -----

  /**
    Every object that is converted, from any state: its keys are those its entries say, over the results of its
    subschemas, rewritten in this way.
  */
  lemma ConvertedExactly(c: Context, r: Reg, es: seq<Entry>)
    requires Registry.Closed(c) && RefsIn(Obj(es), c.universe) && EntriesRefsIn(es, c.universe)
    ensures exists d :: Carries(es, EntriesF(c, r, es).out, d) && Rewritten(d, ConvertF(c, r, Obj(es)).out)
  {
    var outss := EntriesF(c, r, es).out;
    DraftCarries(es, outss);
    FinishComes(Draft(es, outss));
  }

  predicate HasUnionKey(es: seq<Entry>)
  {
    Writes(es, KAnyOf) || Writes(es, KOneOf)
  }

  /** What is required beside an `allOf`. */
  ghost predicate RequiredBeside(es: seq<Entry>, beside: Option<set<string>>)
  {
    && (forall u: nat, rs | Last(es, u) && es[u] == Leaf(Required(rs)) :: beside.Some? && forall r :: r in beside.value <==> r in rs)
    && (!Writes(es, KRequired) ==> beside.None?)
  }

  /** An `allOf` of two or more objects, with no union and no type list beside it, is one object. */
  lemma AllOfBecomesOne(c: Context, r: Reg, es: seq<Entry>, u: nat)
    requires Registry.Closed(c) && RefsIn(Obj(es), c.universe) && EntriesRefsIn(es, c.universe)
    requires Last(es, u) && es[u].Group? && es[u].kw.AllOf? && Parts(Variants(EntriesF(c, r, es).out[u]))
    requires !HasUnionKey(es) && forall i, t | 0 <= i < |es| && es[i] == Leaf(Type(t)) :: !t.Many?
    ensures exists beside ::
              RequiredBeside(es, beside) && Merges(EntriesF(c, r, es).out[u], beside, ConvertF(c, r, Obj(es)).out)
  {
    AllOfMerges(es, EntriesF(c, r, es).out, u);
  }

  lemma AllOfMerges(es: seq<Entry>, outss: seq<seq<Out>>, u: nat)
    requires Fits(es, outss) && Last(es, u) && es[u].Group? && es[u].kw.AllOf? && Parts(Variants(outss[u]))
    requires !HasUnionKey(es) && forall i, t | 0 <= i < |es| && es[i] == Leaf(Type(t)) :: !t.Many?
    ensures RequiredBeside(es, Draft(es, outss).required)
    ensures Merges(outss[u], Draft(es, outss).required, Finish(Draft(es, outss)))
  {
    var d := Draft(es, outss);
    DraftCarries(es, outss);
    FinishComes(d);
    assert Written(es[u], outss[u], d);
    assert Free(d, KAnyOf) && Free(d, KOneOf);
    NoTypeList(es);
    DraftShape(es, outss);
    BesideIs(es, outss);
  }

  lemma BesideIs(es: seq<Entry>, outss: seq<seq<Out>>)
    requires Fits(es, outss) && Carries(es, outss, Draft(es, outss))
    ensures RequiredBeside(es, Draft(es, outss).required)
  {
    forall u: nat, rs | Last(es, u) && es[u] == Leaf(Required(rs))
      ensures Draft(es, outss).required.Some? && forall r :: r in Draft(es, outss).required.value <==> r in rs
    {
      assert Written(es[u], outss[u], Draft(es, outss));
    }
    if !Writes(es, KRequired) { assert Free(Draft(es, outss), KRequired); }
  }

  lemma {:induction false} NoTypeList(es: seq<Entry>)
    requires forall i, t | 0 <= i < |es| && es[i] == Leaf(Type(t)) :: !t.Many?
    ensures !TypeOf(es).Many?
  {
    if es != [] { NoTypeList(es[..|es| - 1]); }
  }
}
