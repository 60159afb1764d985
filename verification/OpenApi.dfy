/**
  The Schema Object of section 4.7.24 of OpenAPI 3.0.3, as far as the generator produces it,
  with its meaning. `nullable: true` is read as the generator intends it: "or null".
*/
module OpenApi {
  import opened Options
  import opened JsonSchema

  /** An optional list of variants, and an optional map of properties. */
  datatype Variants = NoVariants | Variants(list: seq<Out>)
  datatype PropsKw = NoProps | Props(value: map<string, Out>)
  datatype ItemsKw = NoItems | ItemsOf(value: Out)
  datatype AdditionalKw = AddNone | AddBool(allowed: bool) | AddSchema(schema: Out)

  /** A `$ref` to a component, or an object whose absent keys are `None`, `NoType`, `NoProps`, .... */
  datatype Out =
    | ORef(name: string)
    | ONode(
        typ: TypeKw,
        enum: Option<seq<Json>>,
        props: PropsKw,
        required: Option<set<string>>,
        items: ItemsKw,
        additional: AdditionalKw,
        anyOf: Variants,
        oneOf: Variants,
        allOf: Variants,
        nullable: bool,
        default: Option<Json>,
        notes: map<string, Json>,
        others: map<string, Json>)

  const EMPTY := ONode(NoType, None, NoProps, None, NoItems, AddNone, NoVariants, NoVariants, NoVariants, false, None,
                       map[], map[])

  predicate EnumOk(enum: Option<seq<Json>>, v: Json)
  {
    enum.Some? ==> v in enum.value
  }

  predicate RequiredOk(required: Option<set<string>>, v: Json)
  {
    v.JObj? && required.Some? ==> required.value <= v.members.Keys
  }

  predicate OthersOk(others: map<string, Json>, v: Json, m: Meaning)
  {
    forall k | k in others :: m.ext(k, others[k], v)
  }

  predicate PropsOk(props: PropsKw, v: Json, m: Meaning)
    decreases props, 0
  {
    v.JObj? && props.Props? ==>
      forall k | k in props.value && k in v.members :: OValid(props.value[k], v.members[k], m)
  }

  predicate ItemsOk(items: ItemsKw, v: Json, m: Meaning)
    decreases items, 0
  {
    v.JArr? && items.ItemsOf? ==> forall j | 0 <= j < |v.items| :: OValid(items.value, v.items[j], m)
  }

  predicate AdditionalOk(a: AdditionalKw, names: set<string>, v: Json, m: Meaning)
    decreases a, 0
  {
    v.JObj? ==>
      match a
      case AddNone => true
      case AddBool(b) => b || v.members.Keys <= names
      case AddSchema(s) => forall k | k in v.members && k !in names :: OValid(s, v.members[k], m)
  }

  predicate AnyOfOk(os: Variants, v: Json, m: Meaning)
    decreases os, 0
  {
    os.Variants? ==> exists i | 0 <= i < |os.list| :: OValid(os.list[i], v, m)
  }

  predicate OneOfOk(os: Variants, v: Json, m: Meaning)
    decreases os, 0
  {
    os.Variants? ==>
      exists i | 0 <= i < |os.list| :: OValid(os.list[i], v, m)
        && forall j | 0 <= j < |os.list| && j != i :: !OValid(os.list[j], v, m)
  }

  predicate AllOfOk(os: Variants, v: Json, m: Meaning)
    decreases os, 0
  {
    os.Variants? ==> forall i | 0 <= i < |os.list| :: OValid(os.list[i], v, m)
  }

  function OutNames(o: Out): set<string>
    requires o.ONode?
  {
    if o.props.Props? then o.props.value.Keys else {}
  }

  /** Every key of the object except `nullable`. */
  predicate Constraints(o: Out, v: Json, m: Meaning)
    requires o.ONode?
    decreases o, 0
  {
    && TypeOk(o.typ, v)
    && EnumOk(o.enum, v)
    && RequiredOk(o.required, v)
    && OthersOk(o.others, v, m)
    && PropsOk(o.props, v, m)
    && ItemsOk(o.items, v, m)
    && AdditionalOk(o.additional, OutNames(o), v, m)
    && AnyOfOk(o.anyOf, v, m)
    && OneOfOk(o.oneOf, v, m)
    && AllOfOk(o.allOf, v, m)
  }

  predicate OValid(o: Out, v: Json, m: Meaning)
    decreases o, 1
  {
    match o
    case ORef(name) => m.refs(name, v)
    case ONode(_, _, _, _, _, _, _, _, _, nullable, _, _, _) => (nullable && v.JNull?) || Constraints(o, v, m)
  }
}
