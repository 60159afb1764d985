/**
  JSON values, and the JSON Schema (draft-07) documents that the OpenAPI generator reads,
  with their meaning: sections 6.1.1, 6.1.2, 6.1.3, 6.4.1, 6.5.3, 6.5.4, 6.5.6, 6.7.1, 6.7.2
  and 6.7.3 of JSON Schema Validation draft-07.
*/
module JsonSchema {
  import opened Options

  datatype Json =
    | JNull
    | JBool(flag: bool)
    | JNum(num: real)
    | JStr(text: string)
    | JArr(items: seq<Json>)
    | JObj(members: map<string, Json>)

  datatype Type = TNull | TBoolean | TNumber | TInteger | TString | TArray | TObject

  /** The `type` keyword: missing, one name, or a list of names. */
  datatype TypeKw = NoType | One(t: Type) | Many(ts: seq<Type>)

  predicate HasType(v: Json, t: Type)
  {
    match t
    case TNull => v.JNull?
    case TBoolean => v.JBool?
    case TNumber => v.JNum?
    case TInteger => v.JNum? && v.num.Floor as real == v.num
    case TString => v.JStr?
    case TArray => v.JArr?
    case TObject => v.JObj?
  }

  predicate TypeOk(k: TypeKw, v: Json)
  {
    match k
    case NoType => true
    case One(t) => HasType(v, t)
    case Many(ts) => exists t | t in ts :: HasType(v, t)
  }

  /** No JSON value has both types. */
  predicate Disjoint(a: Type, b: Type)
  {
    a != b && !(a in {TNumber, TInteger} && b in {TNumber, TInteger})
  }

  predicate DisjointList(ts: seq<Type>)
  {
    forall i, j | 0 <= i < j < |ts| :: Disjoint(ts[i], ts[j])
  }

  /**
    A schema as the translator meets it. `Absent` is a missing definition, `Always` a boolean schema,
    `Ref(None)` a reference outside `#/definitions/`. An object keeps its keywords in written order,
    because the translator resolves references in that order.
  */
  datatype Schema =
    | Absent
    | Always(b: bool)
    | Ref(target: Option<string>)
    | Obj(entries: seq<Entry>)

  datatype Entry =
    | Leaf(leaf: LeafKw)
    | Group(kw: GroupKw, kids: seq<Kid>)

  /** A subschema; `name` is the property name under `properties` and empty elsewhere. */
  datatype Kid = Kid(name: string, schema: Schema)

  /**
    Keywords without subschemas. `Note` stands for annotations (description, title, ...),
    `Other` for any further per-value assertion (format, pattern, minimum, ...), and `Dropped`
    for the keys the translator throws away.
  */
  datatype LeafKw =
    | Type(typ: TypeKw)
    | Enum(values: seq<Json>)
    | Const(value: Json)
    | Required(names: seq<string>)
    | AdditionalBool(allowed: bool)
    | Default(json: Json)
    | Note(key: string, json: Json)
    | Other(key: string, json: Json)
    | Dropped(key: string, json: Json)

  /** The keyword says nothing about values. */
  predicate Annotates(l: LeafKw)
  {
    l.Default? || l.Note? || l.Dropped?
  }

  datatype GroupKw = Properties | Items | Tuple | Additional | AnyOf | OneOf | AllOf

  /**
    Which halves of an agreement between two schemas are meant: that the second accepts whatever the first does
    (sound), that the first accepts whatever the second does (exact).
  */
  datatype Side = Side(sound: bool, exact: bool)

  const SOUND := Side(true, false)
  const BOTH := Side(true, true)
  const BACK := Side(false, true)

  /** What references mean, and what the uninterpreted assertions mean. */
  datatype Meaning = Meaning(refs: (string, Json) -> bool, ext: (string, Json, Json) -> bool)

  /** References accept no less. */
  ghost predicate Below(m1: Meaning, m2: Meaning)
  {
    m1.ext == m2.ext && forall d, v :: m1.refs(d, v) ==> m2.refs(d, v)
  }

  function KidNames(kids: seq<Kid>): set<string>
  {
    set k | k in kids :: k.name
  }

  /** The property names an object schema lists (what `additionalProperties` leaves over). */
  function PropNames(es: seq<Entry>): set<string>
  {
    if es == [] then {}
    else
      var n := |es| - 1;
      PropNames(es[..n]) + (if es[n].Group? && es[n].kw.Properties? then KidNames(es[n].kids) else {})
  }

  predicate LeafOk(l: LeafKw, names: set<string>, v: Json, m: Meaning)
  {
    match l
    case Type(t) => TypeOk(t, v)
    case Enum(vs) => v in vs
    case Const(c) => v == c
    case Required(rs) => v.JObj? ==> forall r | r in rs :: r in v.members
    case AdditionalBool(b) => v.JObj? && !b ==> v.members.Keys <= names
    case Default(_) => true
    case Note(_, _) => true
    case Other(k, j) => m.ext(k, j, v)
    case Dropped(_, _) => true
  }

  /** Draft-07 validation; structural, because references are read through `m`. */
  predicate Valid(s: Schema, v: Json, m: Meaning)
    decreases s
  {
    match s
    case Absent => true
    case Always(b) => b
    case Ref(None) => true
    case Ref(Some(d)) => m.refs(d, v)
    case Obj(es) => forall i | 0 <= i < |es| :: EntryOk(es[i], PropNames(es), v, m)
  }

  predicate EntryOk(e: Entry, names: set<string>, v: Json, m: Meaning)
    decreases e
  {
    match e
    case Leaf(l) => LeafOk(l, names, v, m)
    case Group(Properties, kids) =>
      v.JObj? ==> forall i | 0 <= i < |kids| && kids[i].name in v.members ::
                    Valid(kids[i].schema, v.members[kids[i].name], m)
    case Group(Items, kids) =>
      v.JArr? && kids != [] ==> forall j | 0 <= j < |v.items| :: Valid(kids[0].schema, v.items[j], m)
    case Group(Tuple, kids) =>
      v.JArr? ==> forall i | 0 <= i < |kids| && i < |v.items| :: Valid(kids[i].schema, v.items[i], m)
    case Group(Additional, kids) =>
      v.JObj? && kids != [] ==> forall k | k in v.members && k !in names :: Valid(kids[0].schema, v.members[k], m)
    case Group(AnyOf, kids) => exists i | 0 <= i < |kids| :: Valid(kids[i].schema, v, m)
    case Group(OneOf, kids) =>
      exists i | 0 <= i < |kids| :: Valid(kids[i].schema, v, m)
        && forall j | 0 <= j < |kids| && j != i :: !Valid(kids[j].schema, v, m)
    case Group(AllOf, kids) => forall i | 0 <= i < |kids| :: Valid(kids[i].schema, v, m)
  }
}
