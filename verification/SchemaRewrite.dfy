/**
  One object of `toOpenApiSchema`, once its subschemas are translated: the draft object the keyword
  loop fills, and the rewrites that follow (type lists, null variants, bare null, flattened `allOf`,
  null in `enum`).
*/
module SchemaRewrite {
  import opened Options
  import opened JsonSchema
  import opened OpenApi

  // ----- the keyword loop -----

  /** `properties` as an object: a repeated name keeps the last value. */
  function PropsOf(kids: seq<Kid>, outs: seq<Out>): map<string, Out>
    requires |kids| == |outs|
  {
    if kids == [] then map[]
    else
      var n := |kids| - 1;
      PropsOf(kids[..n], outs[..n])[kids[n].name := outs[n]]
  }

  function FirstOr(outs: seq<Out>): Out
  {
    if outs == [] then EMPTY else outs[0]
  }

  /** One turn of the loop over the object's own keys; `outs` are the translated subschemas. */
  function Assign(o: Out, e: Entry, outs: seq<Out>): Out
    requires o.ONode?
    requires e.Group? ==> |outs| == |e.kids|
    ensures Assign(o, e, outs).ONode?
  {
    match e
    case Leaf(Type(t)) => o.(typ := t)
    case Leaf(Enum(vs)) => o.(enum := Some(vs))
    case Leaf(Const(c)) => o.(enum := Some([c]))
    case Leaf(Required(rs)) => o.(required := Some(set r | r in rs))
    case Leaf(AdditionalBool(b)) => o.(additional := AddBool(b))
    case Leaf(Default(j)) => o.(default := Some(j))
    case Leaf(Note(k, j)) => o.(notes := o.notes[k := j])
    case Leaf(Other(k, j)) => o.(others := o.others[k := j])
    case Leaf(Dropped(_, _)) => o
    case Group(Properties, kids) => o.(props := Props(PropsOf(kids, outs)))
    case Group(Items, _) => o.(items := ItemsOf(FirstOr(outs)))
    case Group(Tuple, _) => o.(items := ItemsOf(EMPTY.(oneOf := Variants(outs))))
    case Group(Additional, _) => o.(additional := AddSchema(FirstOr(outs)))
    case Group(AnyOf, _) => o.(anyOf := Variants(outs))
    case Group(OneOf, _) => o.(oneOf := Variants(outs))
    case Group(AllOf, _) => o.(allOf := Variants(outs))
  }

  /** `outss[i]` belongs to `es[i]`: one translated schema per subschema, none for a leaf. */
  predicate Fits(es: seq<Entry>, outss: seq<seq<Out>>)
  {
    && |es| == |outss|
    && forall i | 0 <= i < |es| && es[i].Group? :: |outss[i]| == |es[i].kids|
  }

  /** The draft object after the whole loop. */
  function Draft(es: seq<Entry>, outss: seq<seq<Out>>): Out
    requires Fits(es, outss)
    ensures Draft(es, outss).ONode?
  {
    if es == [] then EMPTY
    else
      var n := |es| - 1;
      Assign(Draft(es[..n], outss[..n]), es[n], outss[n])
  }

  // ----- the rewrites -----

  /** `{type: "null"}` or the already translated `{nullable: true}`, a default aside. */
  predicate IsNullSchema(o: Out)
  {
    o.ONode? && o.(default := None) in {EMPTY.(nullable := true), EMPTY.(typ := One(TNull))}
  }

  function NonNullTypes(ts: seq<Type>): seq<Type>
  {
    if ts == [] then []
    else
      var n := |ts| - 1;
      if ts[n].TNull? then NonNullTypes(ts[..n]) else NonNullTypes(ts[..n]) + [ts[n]]
  }

  /** The rest of the object once per type. */
  function TypeVariants(o: Out, ts: seq<Type>): (r: seq<Out>)
    requires o.ONode?
    ensures |r| == |ts| && forall i | 0 <= i < |ts| :: r[i] == o.(typ := One(ts[i]))
  {
    seq(|ts|, i requires 0 <= i < |ts| => o.(typ := One(ts[i])))
  }

  /** `type: [...]` becomes one type, or a `oneOf` with the rest of the object in each variant. */
  function SplitTypes(o: Out): (r: Out)
    requires o.ONode?
    ensures r.ONode?
  {
    if !o.typ.Many? then o
    else
      var ts := NonNullTypes(o.typ.ts);
      var split :=
        if |ts| == 1 then o.(typ := One(ts[0]))
        else EMPTY.(oneOf := Variants(TypeVariants(o, ts)));
      if |ts| != |o.typ.ts| then split.(nullable := true) else split
  }

  function NonNull(os: seq<Out>): seq<Out>
  {
    if os == [] then []
    else
      var n := |os| - 1;
      if IsNullSchema(os[n]) then NonNull(os[..n]) else NonNull(os[..n]) + [os[n]]
  }

  /** A `$ref` is wrapped, because OpenAPI 3.0 ignores what stands beside it. */
  function WithNullable(o: Out): (r: Out)
    ensures r.ONode?
  {
    if o.ORef? then EMPTY.(allOf := Variants([o]), nullable := true) else o.(nullable := true)
  }

  function MarkNullable(o: Out): (r: Out)
    requires o.ONode?
    ensures r.ONode?
  {
    o.(nullable := true)
  }

  /** `{...a, ...b}`. */
  function Spread(a: Out, b: Out): (r: Out)
    requires a.ONode? && b.ONode?
    ensures r.ONode?
  {
    ONode(
      if b.typ.NoType? then a.typ else b.typ,
      if b.enum.None? then a.enum else b.enum,
      if b.props.NoProps? then a.props else b.props,
      if b.required.None? then a.required else b.required,
      if b.items.NoItems? then a.items else b.items,
      if b.additional.AddNone? then a.additional else b.additional,
      if b.anyOf.NoVariants? then a.anyOf else b.anyOf,
      if b.oneOf.NoVariants? then a.oneOf else b.oneOf,
      if b.allOf.NoVariants? then a.allOf else b.allOf,
      a.nullable || b.nullable,
      if b.default.None? then a.default else b.default,
      a.notes + b.notes,
      a.others + b.others)
  }

  /** Where the rewriting stands: still going, or returned early. */
  datatype Step = Go(o: Out) | Returned(o: Out)

  function DropNullAnyOf(o: Out): (r: Step)
    requires o.ONode?
    ensures r.o.ONode?
  {
    if o.anyOf.NoVariants? then Go(o)
    else
      var nonNull := NonNull(o.anyOf.list);
      if |nonNull| == |o.anyOf.list| then Go(o)
      else if |nonNull| == 1 then
        Returned(MarkNullable(Spread(WithNullable(nonNull[0]), o.(anyOf := NoVariants))))
      else Go(o.(anyOf := Variants(nonNull), nullable := true))
  }

  function DropNullOneOf(o: Out): (r: Step)
    requires o.ONode?
    ensures r.o.ONode?
  {
    if o.oneOf.NoVariants? then Go(o)
    else
      var nonNull := NonNull(o.oneOf.list);
      if |nonNull| == |o.oneOf.list| then Go(o)
      else if |nonNull| == 1 then
        Returned(MarkNullable(Spread(WithNullable(nonNull[0]), o.(oneOf := NoVariants))))
      else Go(o.(oneOf := Variants(nonNull), nullable := true))
  }

  function BareNull(o: Out): (r: Out)
    requires o.ONode?
    ensures r.ONode?
  {
    if o.typ == One(TNull) then o.(typ := NoType, default := None, nullable := true) else o
  }

  predicate PlainObject(o: Out)
  {
    o.ONode? && o.typ == One(TObject) && o.props.Props? && !o.nullable
  }

  predicate AllPlain(os: seq<Out>)
  {
    forall i | 0 <= i < |os| :: PlainObject(os[i])
  }

  /** `Object.assign` over the parts: a later part's property replaces an earlier one's. */
  function MergedProps(parts: seq<Out>): map<string, Out>
    requires AllPlain(parts)
  {
    if parts == [] then map[]
    else
      var n := |parts| - 1;
      MergedProps(parts[..n]) + parts[n].props.value
  }

  function MergedRequired(parts: seq<Out>): set<string>
    requires AllPlain(parts)
  {
    if parts == [] then {}
    else
      var n := |parts| - 1;
      MergedRequired(parts[..n]) + (if parts[n].required.Some? then parts[n].required.value else {})
  }

  /** An `allOf` of two or more plain objects becomes one object. */
  function FlattenAllOf(o: Out): (r: Out)
    requires o.ONode?
    ensures r.ONode?
  {
    if o.allOf.Variants? && AllPlain(o.allOf.list) && |o.allOf.list| > 1 then
      var required := MergedRequired(o.allOf.list);
      var flat := o.(allOf := NoVariants, typ := One(TObject), props := Props(MergedProps(o.allOf.list)));
      if required != {} then flat.(required := Some(required)) else flat
    else o
  }

  function WithoutNull(vs: seq<Json>): seq<Json>
  {
    if vs == [] then []
    else
      var n := |vs| - 1;
      if vs[n].JNull? then WithoutNull(vs[..n]) else WithoutNull(vs[..n]) + [vs[n]]
  }

  function EnumNull(o: Out): (r: Out)
    requires o.ONode?
    ensures r.ONode?
  {
    if o.enum.Some? && JNull in o.enum.value then o.(enum := Some(WithoutNull(o.enum.value)), nullable := true)
    else o
  }

  /** The type that `typeof` gives every value of a non-empty enum, if it is a JSON scalar type. */
  function EnumKind(o: Out): (r: Out)
    requires o.ONode?
    ensures r.ONode?
  {
    if o.enum.None? || !o.typ.NoType? || o.enum.value == [] then o
    else if forall v | v in o.enum.value :: v.JStr? then o.(typ := One(TString))
    else if forall v | v in o.enum.value :: v.JBool? then o.(typ := One(TBoolean))
    else if forall v | v in o.enum.value :: v.JNum? then o.(typ := One(TNumber))
    else o
  }

  function Late(o: Out): (r: Out)
    requires o.ONode?
    ensures r.ONode?
  {
    EnumKind(EnumNull(FlattenAllOf(BareNull(o))))
  }

  /** Everything `toOpenApiSchema` does after the keyword loop. */
  function Finish(o: Out): (r: Out)
    requires o.ONode?
    ensures r.ONode?
  {
    var s1 := DropNullAnyOf(SplitTypes(o));
    if s1.Returned? then s1.o
    else
      var s2 := DropNullOneOf(s1.o);
      if s2.Returned? then s2.o
      else Late(s2.o)
  }
}
