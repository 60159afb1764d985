/**
  One object of the translation keeps its meaning: every rewrite of `SchemaRewrite` accepts what the
  source object accepts, and on the exact fragment nothing else.
*/
module SchemaMeaning {
  import opened Options
  import opened JsonSchema
  import opened OpenApi
  import opened SchemaRewrite

  /**
    `o` stands for `s` at the value `w`. A translated bare null is read as its parent `anyOf` reads it:
    as null only.
  */
  predicate AgreesOn(side: Side, s: Schema, o: Out, w: Json, m: Meaning, cm: Meaning)
  {
    && (side.sound && Valid(s, w, m) ==> OValid(o, w, cm))
    && (side.sound && IsNullSchema(o) && Valid(s, w, m) ==> w.JNull?)
    && (side.exact && IsNullSchema(o) && w.JNull? ==> Valid(s, w, m))
    && (side.exact && !IsNullSchema(o) && OValid(o, w, cm) ==> Valid(s, w, m))
  }

  ghost predicate Agrees(side: Side, s: Schema, o: Out, m: Meaning, cm: Meaning)
  {
    forall w :: AgreesOn(side, s, o, w, m, cm)
  }

  ghost predicate KidsAgree(side: Side, kids: seq<Kid>, outs: seq<Out>, m: Meaning, cm: Meaning)
  {
    |kids| == |outs| && forall i | 0 <= i < |kids| :: Agrees(side, kids[i].schema, outs[i], m, cm)
  }

  // ----- the fragment, one object at a time -----

  datatype Key =
    | KType | KEnum | KConst | KRequired | KAdditional | KDefault | KProps | KItems | KAnyOf | KOneOf | KAllOf
    | KNamed(name: string)

  function KeyOf(e: Entry): Key
  {
    match e
    case Leaf(Type(_)) => KType
    case Leaf(Enum(_)) => KEnum
    case Leaf(Const(_)) => KConst
    case Leaf(Required(_)) => KRequired
    case Leaf(AdditionalBool(_)) => KAdditional
    case Leaf(Default(_)) => KDefault
    case Leaf(Note(k, _)) => KNamed(k)
    case Leaf(Other(k, _)) => KNamed(k)
    case Leaf(Dropped(k, _)) => KNamed(k)
    case Group(Properties, _) => KProps
    case Group(Items, _) => KItems
    case Group(Tuple, _) => KItems
    case Group(Additional, _) => KAdditional
    case Group(AnyOf, _) => KAnyOf
    case Group(OneOf, _) => KOneOf
    case Group(AllOf, _) => KAllOf
  }

  /** A JSON object has each key once. */
  predicate UniqueKeys(es: seq<Entry>)
  {
    forall i, j | 0 <= i < j < |es| :: KeyOf(es[i]) != KeyOf(es[j])
  }

  predicate Annotation(e: Entry)
  {
    e.Leaf? && Annotates(e.leaf)
  }

  predicate Combinator(e: Entry)
  {
    e.Group? && (e.kw.AnyOf? || e.kw.AllOf?)
  }

  predicate EntryInFragment(e: Entry)
  {
    match e
    case Leaf(Type(t)) => !t.NoType? && (t.Many? ==> DisjointList(t.ts))
    case Leaf(_) => true
    case Group(kw, kids) =>
      && !kw.Tuple? && !kw.OneOf?
      && (kw.Items? || kw.Additional? ==> |kids| == 1)
      && (kw.Properties? ==> forall i, j | 0 <= i < j < |kids| :: kids[i].name != kids[j].name)
  }

  /**
    The soundness fragment: no tuple, no source `oneOf`, disjoint type lists, and no assertion beside
    `anyOf` or `allOf`.
  */
  predicate InFragment(es: seq<Entry>)
  {
    && UniqueKeys(es)
    && (forall i | 0 <= i < |es| :: EntryInFragment(es[i]))
    && (forall i, j | 0 <= i < |es| && 0 <= j < |es| && i != j && Combinator(es[i]) :: Annotation(es[j]))
  }

  /** The value of the `type` key, and the values `enum` or `const` allow. */
  function TypeOf(es: seq<Entry>): TypeKw
  {
    if es == [] then NoType
    else
      var n := |es| - 1;
      if es[n].Leaf? && es[n].leaf.Type? then es[n].leaf.typ else TypeOf(es[..n])
  }

  function EnumOf(es: seq<Entry>): Option<seq<Json>>
  {
    if es == [] then None
    else
      var n := |es| - 1;
      if es[n].Leaf? && es[n].leaf.Enum? then Some(es[n].leaf.values)
      else if es[n].Leaf? && es[n].leaf.Const? then Some([es[n].leaf.value])
      else EnumOf(es[..n])
  }

  /** Nothing but `type: "null"` and keys the null test ignores. */
  predicate BareNullEntries(es: seq<Entry>)
  {
    && TypeOf(es) == One(TNull)
    && forall i | 0 <= i < |es| :: es[i].Leaf? && (es[i].leaf.Type? || es[i].leaf.Default? || es[i].leaf.Dropped?)
  }

  /** What exactness asks of an object beyond `InFragment`. */
  predicate ExactEntries(es: seq<Entry>)
  {
    && !(exists i, j | 0 <= i < |es| && 0 <= j < |es| :: KeyOf(es[i]) == KEnum && KeyOf(es[j]) == KConst)
    && (TypeOf(es) == One(TNull) ==> BareNullEntries(es))
    && (EnumOf(es).Some? && JNull in EnumOf(es).value ==> TypeOk(TypeOf(es), JNull))
    && (EnumOf(es).Some? && TypeOf(es).Many? && TypeOk(TypeOf(es), JNull) ==> JNull in EnumOf(es).value)
  }

  /** The object that `withNullable` turns into a bare null. */
  predicate Blank(o: Out)
  {
    o.ONode? && o.(default := None) == EMPTY
  }

  ghost predicate HasNull(outs: seq<Out>)
  {
    exists i | 0 <= i < |outs| :: IsNullSchema(outs[i])
  }

  ghost predicate HasBlank(outs: seq<Out>)
  {
    exists i | 0 <= i < |outs| :: Blank(outs[i])
  }

  /** A part that flattening copies completely. */
  predicate PartOnly(o: Out)
  {
    o.ONode? && o.(props := NoProps, required := None, notes := map[], default := None) == EMPTY.(typ := One(TObject))
  }

  predicate DisjointParts(outs: seq<Out>)
    requires AllPlain(outs)
  {
    forall i, j | 0 <= i < j < |outs| :: OutNames(outs[i]) !! OutNames(outs[j])
  }

  /** What the translated subschemas of one entry must be for the entry to keep its meaning. */
  ghost predicate OutsFit(exact: bool, e: Entry, outs: seq<Out>)
  {
    e.Group? ==>
      && (e.kw.AnyOf? && HasNull(outs) ==> !HasBlank(outs))
      && (exact && !e.kw.AnyOf? ==> !HasNull(outs))
      && (exact && e.kw.AllOf? && AllPlain(outs) && |outs| > 1 ==>
            (forall i | 0 <= i < |outs| :: PartOnly(outs[i])) && DisjointParts(outs))
  }

  // ----- from the source object to the draft -----

  /** The draft's constraints, with the names `additionalProperties` leaves over given apart. */
  predicate DraftOk(d: Out, names: set<string>, v: Json, cm: Meaning)
    requires d.ONode?
  {
    && TypeOk(d.typ, v)
    && EnumOk(d.enum, v)
    && RequiredOk(d.required, v)
    && OthersOk(d.others, v, cm)
    && PropsOk(d.props, v, cm)
    && ItemsOk(d.items, v, cm)
    && AdditionalOk(d.additional, names, v, cm)
    && AnyOfOk(d.anyOf, v, cm)
    && OneOfOk(d.oneOf, v, cm)
    && AllOfOk(d.allOf, v, cm)
  }

  lemma {:induction false} PropsOfHas(kids: seq<Kid>, outs: seq<Out>)
    requires |kids| == |outs|
    ensures forall k | k in PropsOf(kids, outs) ::
              exists i | 0 <= i < |kids| :: kids[i].name == k && PropsOf(kids, outs)[k] == outs[i]
    ensures PropsOf(kids, outs).Keys == KidNames(kids)
    ensures (forall i, j | 0 <= i < j < |kids| :: kids[i].name != kids[j].name) ==>
              forall i | 0 <= i < |kids| :: kids[i].name in PropsOf(kids, outs) && PropsOf(kids, outs)[kids[i].name] == outs[i]
  {
    if kids != [] {
      var n := |kids| - 1;
      PropsOfHas(kids[..n], outs[..n]);
      assert kids == kids[..n] + [kids[n]];
    }
  }

  /** The constraint that one turn of the keyword loop writes into the draft. */
  predicate SlotOk(e: Entry, outs: seq<Out>, names: set<string>, v: Json, cm: Meaning)
    requires e.Group? ==> |outs| == |e.kids|
  {
    match e
    case Leaf(Type(t)) => TypeOk(t, v)
    case Leaf(Enum(vs)) => EnumOk(Some(vs), v)
    case Leaf(Const(c)) => EnumOk(Some([c]), v)
    case Leaf(Required(rs)) => RequiredOk(Some(set r | r in rs), v)
    case Leaf(AdditionalBool(b)) => AdditionalOk(AddBool(b), names, v, cm)
    case Leaf(Other(k, j)) => cm.ext(k, j, v)
    case Leaf(_) => true
    case Group(Properties, kids) => PropsOk(Props(PropsOf(kids, outs)), v, cm)
    case Group(Items, _) => ItemsOk(ItemsOf(FirstOr(outs)), v, cm)
    case Group(Tuple, _) => ItemsOk(ItemsOf(EMPTY.(oneOf := Variants(outs))), v, cm)
    case Group(Additional, _) => AdditionalOk(AddSchema(FirstOr(outs)), names, v, cm)
    case Group(AnyOf, _) => AnyOfOk(Variants(outs), v, cm)
    case Group(OneOf, _) => OneOfOk(Variants(outs), v, cm)
    case Group(AllOf, _) => AllOfOk(Variants(outs), v, cm)
  }

  lemma PropertiesSound(side: Side, kids: seq<Kid>, outs: seq<Out>, v: Json, m: Meaning, cm: Meaning)
    requires side.sound && KidsAgree(side, kids, outs, m, cm) && EntryOk(Group(Properties, kids), {}, v, m)
    ensures PropsOk(Props(PropsOf(kids, outs)), v, cm)
  {
    PropsOfHas(kids, outs);
    if v.JObj? {
      var props := PropsOf(kids, outs);
      forall k | k in props && k in v.members ensures OValid(props[k], v.members[k], cm) {
        var i :| 0 <= i < |kids| && kids[i].name == k && props[k] == outs[i];
        assert AgreesOn(side, kids[i].schema, outs[i], v.members[k], m, cm);
      }
    }
  }

  lemma EntrySound(side: Side, e: Entry, outs: seq<Out>, names: set<string>, v: Json, m: Meaning, cm: Meaning)
    requires side.sound && EntryInFragment(e) && m.ext == cm.ext
    requires e.Group? ==> KidsAgree(side, e.kids, outs, m, cm)
    requires EntryOk(e, names, v, m)
    ensures SlotOk(e, outs, names, v, cm)
  {
    if e.Group? {
      forall i, w | 0 <= i < |e.kids| && Valid(e.kids[i].schema, w, m) ensures OValid(outs[i], w, cm) {
        assert AgreesOn(side, e.kids[i].schema, outs[i], w, m, cm);
      }
      if e.kw.Properties? { PropertiesSound(side, e.kids, outs, v, m, cm); }
    }
  }

  lemma AssignOk(d: Out, e: Entry, outs: seq<Out>, names: set<string>, v: Json, cm: Meaning)
    requires d.ONode? && (e.Group? ==> |outs| == |e.kids|)
    requires SlotOk(e, outs, names, v, cm) && DraftOk(d, names, v, cm)
    ensures DraftOk(Assign(d, e, outs), names, v, cm)
  {
  }

  ghost predicate AllKidsAgree(side: Side, es: seq<Entry>, outss: seq<seq<Out>>, m: Meaning, cm: Meaning)
    requires Fits(es, outss)
  {
    forall i | 0 <= i < |es| && es[i].Group? :: KidsAgree(side, es[i].kids, outss[i], m, cm)
  }

  /** Every constraint of the draft comes from a keyword the value satisfies. */
  lemma {:induction false} DraftSound(side: Side, es: seq<Entry>, outss: seq<seq<Out>>, names: set<string>, v: Json,
                                      m: Meaning, cm: Meaning)
    requires side.sound && Fits(es, outss) && m.ext == cm.ext && AllKidsAgree(side, es, outss, m, cm)
    requires forall i | 0 <= i < |es| :: EntryInFragment(es[i]) && EntryOk(es[i], names, v, m)
    ensures DraftOk(Draft(es, outss), names, v, cm)
  {
    if es != [] {
      var n := |es| - 1;
      DraftSound(side, es[..n], outss[..n], names, v, m, cm);
      EntrySound(side, es[n], outss[n], names, v, m, cm);
      AssignOk(Draft(es[..n], outss[..n]), es[n], outss[n], names, v, cm);
    }
  }

  // ----- and back: the draft accepts nothing else -----

  /** The draft key that `e` writes; `const` writes `enum`. */
  function Slot(e: Entry): Key
  {
    if KeyOf(e).KConst? then KEnum else KeyOf(e)
  }

  /** The draft key is still missing. */
  predicate Free(d: Out, k: Key)
    requires d.ONode?
  {
    match k
    case KType => d.typ.NoType?
    case KEnum => d.enum.None?
    case KConst => d.enum.None?
    case KRequired => d.required.None?
    case KAdditional => d.additional.AddNone?
    case KDefault => true
    case KProps => d.props.NoProps?
    case KItems => d.items.NoItems?
    case KAnyOf => d.anyOf.NoVariants?
    case KOneOf => d.oneOf.NoVariants?
    case KAllOf => d.allOf.NoVariants?
    case KNamed(n) => n !in d.others
  }

  lemma AssignKeepsFree(d: Out, a: Entry, outs: seq<Out>, k: Key)
    requires d.ONode? && (a.Group? ==> |outs| == |a.kids|)
    requires !k.KConst? && Slot(a) != k && Free(d, k)
    ensures Free(Assign(d, a, outs), k)
  {
    match a
    case Leaf(l) => match l { case Type(_) => case Enum(_) => case Const(_) => case Required(_) => case _ => }
    case Group(kw, _) => match kw { case Properties => case Items => case Tuple => case AnyOf => case _ => }
  }

  lemma {:induction false} DraftFree(es: seq<Entry>, outss: seq<seq<Out>>, k: Key)
    requires Fits(es, outss) && !k.KConst?
    requires forall i | 0 <= i < |es| :: Slot(es[i]) != k
    ensures Free(Draft(es, outss), k)
  {
    if es != [] {
      var n := |es| - 1;
      DraftFree(es[..n], outss[..n], k);
      AssignKeepsFree(Draft(es[..n], outss[..n]), es[n], outss[n], k);
    }
  }

  lemma AssignExact(d: Out, e: Entry, outs: seq<Out>, names: set<string>, v: Json, cm: Meaning)
    requires d.ONode? && (e.Group? ==> |outs| == |e.kids|)
    requires Free(d, Slot(e)) && DraftOk(Assign(d, e, outs), names, v, cm)
    ensures DraftOk(d, names, v, cm)
    ensures SlotOk(e, outs, names, v, cm)
  {
    var a := Assign(d, e, outs);
    if e.Leaf? && e.leaf.Other? {
      assert a.others[e.leaf.key] == e.leaf.json;
      forall k | k in d.others ensures cm.ext(k, d.others[k], v) {
        assert a.others[k] == d.others[k];
      }
    }
  }

  lemma EntryExact(side: Side, e: Entry, outs: seq<Out>, names: set<string>, v: Json, m: Meaning, cm: Meaning)
    requires side.exact && EntryInFragment(e) && m.ext == cm.ext
    requires e.Group? ==> !e.kw.AnyOf? && KidsAgree(side, e.kids, outs, m, cm)
    requires OutsFit(side.exact, e, outs) && SlotOk(e, outs, names, v, cm)
    ensures EntryOk(e, names, v, m)
  {
    if e.Group? {
      forall i, w | 0 <= i < |e.kids| && OValid(outs[i], w, cm) ensures Valid(e.kids[i].schema, w, m) {
        assert AgreesOn(side, e.kids[i].schema, outs[i], w, m, cm);
      }
      if e.kw.Properties? { PropsOfHas(e.kids, outs); }
    }
  }

  ghost predicate AllOutsFit(exact: bool, es: seq<Entry>, outss: seq<seq<Out>>)
    requires Fits(es, outss)
  {
    forall i | 0 <= i < |es| :: OutsFit(exact, es[i], outss[i])
  }

  lemma {:induction false} DraftExact(side: Side, es: seq<Entry>, outss: seq<seq<Out>>, names: set<string>, v: Json,
                                      m: Meaning, cm: Meaning)
    requires side.exact && Fits(es, outss) && m.ext == cm.ext
    requires AllKidsAgree(side, es, outss, m, cm) && AllOutsFit(side.exact, es, outss)
    requires forall i | 0 <= i < |es| :: EntryInFragment(es[i]) && KeyOf(es[i]) != KAnyOf
    requires forall i, j | 0 <= i < j < |es| :: Slot(es[i]) != Slot(es[j])
    requires DraftOk(Draft(es, outss), names, v, cm)
    ensures forall i | 0 <= i < |es| :: EntryOk(es[i], names, v, m)
  {
    if es != [] {
      var n := |es| - 1;
      DraftFree(es[..n], outss[..n], Slot(es[n]));
      AssignExact(Draft(es[..n], outss[..n]), es[n], outss[n], names, v, cm);
      EntryExact(side, es[n], outss[n], names, v, m, cm);
      DraftExact(side, es[..n], outss[..n], names, v, m, cm);
    }
  }

  // ----- the shape of the draft -----

  lemma {:induction false} DraftShape(es: seq<Entry>, outss: seq<seq<Out>>)
    requires Fits(es, outss)
    ensures !Draft(es, outss).nullable
    ensures Draft(es, outss).typ == TypeOf(es)
    ensures Draft(es, outss).enum == EnumOf(es)
  {
    if es != [] {
      var n := |es| - 1;
      DraftShape(es[..n], outss[..n]);
      AssignShape(Draft(es[..n], outss[..n]), es[n], outss[n]);
    }
  }

  lemma AssignShape(d: Out, e: Entry, outs: seq<Out>)
    requires d.ONode? && (e.Group? ==> |outs| == |e.kids|)
    ensures var a := Assign(d, e, outs);
      && a.nullable == d.nullable
      && a.typ == (if e.Leaf? && e.leaf.Type? then e.leaf.typ else d.typ)
      && a.enum == if e.Leaf? && e.leaf.Enum? then Some(e.leaf.values)
                   else if e.Leaf? && e.leaf.Const? then Some([e.leaf.value]) else d.enum
  {
  }

  lemma AssignNames(d: Out, e: Entry, outs: seq<Out>)
    requires d.ONode? && (e.Group? ==> |outs| == |e.kids|)
    ensures OutNames(Assign(d, e, outs)) ==
            if e.Group? && e.kw.Properties? then KidNames(e.kids) else OutNames(d)
  {
    if e.Group? && e.kw.Properties? {
      PropsOfHas(e.kids, outs);
    }
  }

  lemma {:induction false} DraftNames(es: seq<Entry>, outss: seq<seq<Out>>)
    requires Fits(es, outss) && UniqueKeys(es)
    ensures OutNames(Draft(es, outss)) == PropNames(es)
  {
    if es != [] {
      var n := |es| - 1;
      DraftNames(es[..n], outss[..n]);
      AssignNames(Draft(es[..n], outss[..n]), es[n], outss[n]);
      if KeyOf(es[n]).KProps? {
        DraftFree(es[..n], outss[..n], KProps);
      }
    }
  }

  /** The draft without the keys that say nothing about values. */
  function Core(o: Out): (r: Out)
    requires o.ONode?
    ensures r.ONode?
  {
    o.(default := None, notes := map[])
  }

  lemma {:induction false} DraftCombinator(es: seq<Entry>, outss: seq<seq<Out>>, i: nat)
    requires Fits(es, outss) && i < |es| && Combinator(es[i])
    requires forall j | 0 <= j < |es| && j != i :: Annotation(es[j])
    ensures Core(Draft(es, outss)) ==
            if es[i].kw.AnyOf? then EMPTY.(anyOf := Variants(outss[i])) else EMPTY.(allOf := Variants(outss[i]))
  {
    var n := |es| - 1;
    if i == n {
      DraftAnnotations(es[..n], outss[..n]);
    } else {
      DraftCombinator(es[..n], outss[..n], i);
    }
  }

  lemma {:induction false} DraftAnnotations(es: seq<Entry>, outss: seq<seq<Out>>)
    requires Fits(es, outss)
    requires forall j | 0 <= j < |es| :: Annotation(es[j])
    ensures Core(Draft(es, outss)) == EMPTY
  {
    if es != [] {
      DraftAnnotations(es[..|es| - 1], outss[..|es| - 1]);
    }
  }

  /** A draft without `anyOf`, `oneOf` and `allOf`. */
  predicate PlainDraft(d: Out)
  {
    d.ONode? && d.anyOf.NoVariants? && d.oneOf.NoVariants? && d.allOf.NoVariants? && !d.nullable
  }

  lemma DraftPlain(es: seq<Entry>, outss: seq<seq<Out>>)
    requires Fits(es, outss)
    requires forall i | 0 <= i < |es| && es[i].Group? :: !Combinator(es[i]) && !es[i].kw.OneOf?
    ensures PlainDraft(Draft(es, outss))
  {
    DraftShape(es, outss);
    DraftFree(es, outss, KAnyOf);
    DraftFree(es, outss, KOneOf);
    DraftFree(es, outss, KAllOf);
  }

  // ----- the rewrites on a plain draft -----

  lemma {:induction false} NonNullTypesHas(ts: seq<Type>)
    ensures forall t :: t in NonNullTypes(ts) <==> t in ts && !t.TNull?
    ensures |NonNullTypes(ts)| <= |ts|
    ensures |NonNullTypes(ts)| != |ts| <==> TNull in ts
  {
    if ts != [] {
      NonNullTypesHas(ts[..|ts| - 1]);
      assert ts == ts[..|ts| - 1] + [ts[|ts| - 1]];
    }
  }

  lemma {:induction false} NonNullTypesDisjoint(ts: seq<Type>)
    requires DisjointList(ts)
    ensures DisjointList(NonNullTypes(ts))
  {
    if ts != [] {
      var n := |ts| - 1;
      NonNullTypesDisjoint(ts[..n]);
      NonNullTypesHas(ts[..n]);
      var rs := NonNullTypes(ts[..n]);
      forall i | 0 <= i < |rs| ensures Disjoint(rs[i], ts[n]) {
        assert rs[i] in ts[..n];
      }
    }
  }

  lemma {:induction false} WithoutNullHas(vs: seq<Json>)
    ensures forall v :: v in WithoutNull(vs) <==> v in vs && !v.JNull?
  {
    if vs != [] {
      var n := |vs| - 1;
      WithoutNullHas(vs[..n]);
      assert vs == vs[..n] + [vs[n]];
    }
  }

  /** One variant of a split type list. */
  lemma VariantMeaning(d: Out, t: Type, v: Json, cm: Meaning)
    requires PlainDraft(d)
    ensures OValid(d.(typ := One(t)), v, cm) <==> HasType(v, t) && Constraints(d.(typ := NoType), v, cm)
  {
  }

  lemma OneType(v: Json, ts: seq<Type>, i: nat, j: nat)
    requires DisjointList(ts) && i < |ts| && j < |ts| && i != j && HasType(v, ts[i])
    ensures !HasType(v, ts[j])
  {
    assert if i < j then Disjoint(ts[i], ts[j]) else Disjoint(ts[j], ts[i]);
  }

  lemma OneOfIntro(os: seq<Out>, i: nat, v: Json, cm: Meaning)
    requires i < |os| && OValid(os[i], v, cm)
    requires forall j | 0 <= j < |os| && j != i :: !OValid(os[j], v, cm)
    ensures OneOfOk(Variants(os), v, cm)
  {
  }

  lemma OneOfElim(os: seq<Out>, v: Json, cm: Meaning) returns (i: nat)
    requires OneOfOk(Variants(os), v, cm)
    ensures i < |os| && OValid(os[i], v, cm)
  {
    i :| 0 <= i < |os| && OValid(os[i], v, cm);
  }

  lemma VariantsSound(d: Out, ts: seq<Type>, i: nat, v: Json, cm: Meaning)
    requires PlainDraft(d) && DisjointList(ts) && i < |ts| && HasType(v, ts[i])
    requires Constraints(d.(typ := NoType), v, cm)
    ensures OneOfOk(Variants(TypeVariants(d, ts)), v, cm)
  {
    var os := TypeVariants(d, ts);
    VariantMeaning(d, ts[i], v, cm);
    forall j | 0 <= j < |ts| && j != i ensures !OValid(os[j], v, cm) {
      VariantMeaning(d, ts[j], v, cm);
      OneType(v, ts, i, j);
    }
    OneOfIntro(os, i, v, cm);
  }

  lemma OnlyOneOf(os: seq<Out>, nullable: bool, v: Json, cm: Meaning)
    ensures OValid(EMPTY.(oneOf := Variants(os), nullable := nullable), v, cm) <==>
            (nullable && v.JNull?) || OneOfOk(Variants(os), v, cm)
  {
    var o := EMPTY.(oneOf := Variants(os), nullable := nullable);
    assert Constraints(o, v, cm) <==> OneOfOk(o.oneOf, v, cm);
  }

  /** `SplitTypes` accepts every value of the list, and null exactly when the list names it. */
  lemma SplitSound(d: Out, v: Json, cm: Meaning)
    requires PlainDraft(d) && d.typ.Many? && DisjointList(d.typ.ts)
    requires Constraints(d, v, cm)
    ensures OValid(SplitTypes(d), v, cm)
  {
    var ts := NonNullTypes(d.typ.ts);
    NonNullTypesHas(d.typ.ts);
    NonNullTypesDisjoint(d.typ.ts);
    var t :| t in d.typ.ts && HasType(v, t);
    if !t.TNull? {
      var i :| 0 <= i < |ts| && ts[i] == t;
      if |ts| != 1 {
        VariantsSound(d, ts, i, v, cm);
        OnlyOneOf(TypeVariants(d, ts), |ts| != |d.typ.ts|, v, cm);
      }
    }
  }

  lemma SplitExact(d: Out, v: Json, cm: Meaning)
    requires PlainDraft(d) && d.typ.Many?
    requires OValid(SplitTypes(d), v, cm)
    ensures Constraints(d, v, cm) || (v.JNull? && TNull in d.typ.ts)
  {
    var ts := NonNullTypes(d.typ.ts);
    NonNullTypesHas(d.typ.ts);
    if !(v.JNull? && TNull in d.typ.ts) {
      if |ts| == 1 {
        assert ts[0] in ts;
      } else {
        var os := SplitTypes(d).oneOf.list;
        var i := OneOfElim(os, v, cm);
        VariantMeaning(d, ts[i], v, cm);
        assert ts[i] in ts;
      }
    }
  }

  lemma {:induction false} NonNullHas(os: seq<Out>)
    ensures forall o :: o in NonNull(os) <==> o in os && !IsNullSchema(o)
    ensures |NonNull(os)| <= |os|
    ensures |NonNull(os)| == |os| <==> !HasNull(os)
    ensures !HasNull(os) ==> NonNull(os) == os
  {
    if os != [] {
      var n := |os| - 1;
      NonNullHas(os[..n]);
      assert os == os[..n] + [os[n]];
      assert HasNull(os) <==> HasNull(os[..n]) || IsNullSchema(os[n]) by {
        if IsNullSchema(os[n]) { assert HasNull(os); }
        if HasNull(os[..n]) { var i :| 0 <= i < n && IsNullSchema(os[..n][i]); assert IsNullSchema(os[i]); }
        if HasNull(os) && !IsNullSchema(os[n]) { var i :| 0 <= i <= n && IsNullSchema(os[i]); assert IsNullSchema(os[..n][i]); }
      }
    }
  }

  lemma EnumNullMeaning(o: Out, v: Json, cm: Meaning)
    requires o.ONode?
    ensures OValid(o, v, cm) ==> OValid(EnumNull(o), v, cm)
    ensures OValid(EnumNull(o), v, cm) ==>
              OValid(o, v, cm) || (v.JNull? && o.enum.Some? && JNull in o.enum.value)
  {
    if o.enum.Some? { WithoutNullHas(o.enum.value); }
    var r := EnumNull(o);
    assert Constraints(o, v, cm) <==> DraftOk(o, OutNames(o), v, cm);
    assert Constraints(r, v, cm) <==> DraftOk(r, OutNames(o), v, cm);
  }

  lemma EnumKindMeaning(o: Out, v: Json, cm: Meaning)
    requires o.ONode?
    ensures OValid(o, v, cm) <==> OValid(EnumKind(o), v, cm)
  {
  }

  lemma BareNullSound(o: Out, v: Json, cm: Meaning)
    requires o.ONode? && OValid(o, v, cm)
    ensures OValid(BareNull(o), v, cm)
  {
  }

  /** On a plain draft the variant rewrites have nothing to do. */
  lemma FinishPlain(d: Out)
    requires PlainDraft(d)
    ensures Finish(d) == EnumKind(EnumNull(BareNull(SplitTypes(d))))
  {
    var s := SplitTypes(d);
    if s.oneOf.Variants? {
      var ts := NonNullTypes(d.typ.ts);
      NonNullTypesHas(d.typ.ts);
      NonNullHas(s.oneOf.list);
      forall i | 0 <= i < |ts| ensures !IsNullSchema(s.oneOf.list[i]) {
        assert ts[i] in ts;
      }
    }
  }

  lemma FinishPlainSound(d: Out, v: Json, cm: Meaning)
    requires PlainDraft(d) && (d.typ.Many? ==> DisjointList(d.typ.ts))
    requires Constraints(d, v, cm)
    ensures OValid(Finish(d), v, cm)
  {
    FinishPlain(d);
    if d.typ.Many? { SplitSound(d, v, cm); }
    BareNullSound(SplitTypes(d), v, cm);
    EnumNullMeaning(BareNull(SplitTypes(d)), v, cm);
    EnumKindMeaning(EnumNull(BareNull(SplitTypes(d))), v, cm);
  }

  lemma FinishPlainExact(d: Out, v: Json, cm: Meaning)
    requires PlainDraft(d) && d.typ != One(TNull) && (forall k, j :: cm.ext(k, j, JNull))
    requires d.enum.Some? && JNull in d.enum.value ==> TypeOk(d.typ, JNull)
    requires d.enum.Some? && d.typ.Many? && TypeOk(d.typ, JNull) ==> JNull in d.enum.value
    requires OValid(Finish(d), v, cm)
    ensures Constraints(d, v, cm)
  {
    FinishPlain(d);
    var s := SplitTypes(d);
    assert BareNull(s) == s by {
      if d.typ.Many? {
        NonNullTypesHas(d.typ.ts);
        if |NonNullTypes(d.typ.ts)| == 1 { assert NonNullTypes(d.typ.ts)[0] in NonNullTypes(d.typ.ts); }
      }
    }
    EnumKindMeaning(EnumNull(s), v, cm);
    EnumNullMeaning(s, v, cm);
    assert d.typ.Many? && TNull in d.typ.ts ==> TypeOk(d.typ, JNull);
    if d.typ.Many? && OValid(s, v, cm) { SplitExact(d, v, cm); }
  }

  lemma FinishPlainShape(d: Out)
    requires PlainDraft(d)
    ensures IsNullSchema(Finish(d)) <==> d.(default := None) == EMPTY.(typ := One(TNull))
    ensures Blank(Finish(d)) ==> Blank(d)
  {
    FinishPlain(d);
    if d.typ.Many? {
      SplitShape(d);
    }
  }

  /** A split type list leaves a type or a `oneOf`. */
  lemma SplitShape(d: Out)
    requires PlainDraft(d) && d.typ.Many?
    ensures var s := SplitTypes(d); s.oneOf.Variants? || (s.typ.One? && !s.typ.t.TNull?)
  {
    NonNullTypesHas(d.typ.ts);
    var ts := NonNullTypes(d.typ.ts);
    if |ts| == 1 { assert ts[0] in ts; }
  }

  // ----- the rewrites on `anyOf` -----

  lemma FinishAnyOf(d: Out, outs: seq<Out>)
    requires d.ONode? && Core(d) == EMPTY.(anyOf := Variants(outs))
    ensures Finish(d) ==
            if !HasNull(outs) then d
            else if |NonNull(outs)| == 1 then
              MarkNullable(Spread(WithNullable(NonNull(outs)[0]), d.(anyOf := NoVariants)))
            else d.(anyOf := Variants(NonNull(outs)), nullable := true)
  {
    NonNullHas(outs);
  }

  lemma SpreadMeaning(x: Out, notes: Out, v: Json, cm: Meaning)
    requires notes.ONode? && Core(notes) == EMPTY
    ensures OValid(MarkNullable(Spread(WithNullable(x), notes)), v, cm) <==> v.JNull? || OValid(x, v, cm)
  {
    var w := WithNullable(x);
    var r := MarkNullable(Spread(w, notes));
    assert Constraints(r, v, cm) <==> DraftOk(w, OutNames(w), v, cm) by {
      assert w.others + notes.others == w.others;
    }
    if x.ORef? {
      assert Constraints(w, v, cm) <==> AllOfOk(w.allOf, v, cm);
      assert w.allOf.list[0] == x;
    } else {
      assert Constraints(x, v, cm) <==> DraftOk(w, OutNames(w), v, cm);
    }
  }

  ghost predicate NonNullAccepts(outs: seq<Out>, v: Json, cm: Meaning)
  {
    exists i | 0 <= i < |outs| :: !IsNullSchema(outs[i]) && OValid(outs[i], v, cm)
  }

  lemma NonNullAcceptsIn(outs: seq<Out>, v: Json, cm: Meaning)
    ensures NonNullAccepts(outs, v, cm) <==> AnyOfOk(Variants(NonNull(outs)), v, cm)
  {
    NonNullHas(outs);
    var nn := NonNull(outs);
    if NonNullAccepts(outs, v, cm) {
      var i :| 0 <= i < |outs| && !IsNullSchema(outs[i]) && OValid(outs[i], v, cm);
      assert outs[i] in nn;
      var j :| 0 <= j < |nn| && nn[j] == outs[i];
      assert OValid(nn[j], v, cm);
    }
    if AnyOfOk(Variants(nn), v, cm) {
      var j :| 0 <= j < |nn| && OValid(nn[j], v, cm);
      assert nn[j] in nn && nn[j] in outs;
      var i :| 0 <= i < |outs| && outs[i] == nn[j];
      assert OValid(outs[i], v, cm);
    }
  }

  lemma OnlyAnyOf(o: Out, os: seq<Out>, v: Json, cm: Meaning)
    requires o.ONode? && Core(o.(nullable := false)) == EMPTY.(anyOf := Variants(os))
    ensures OValid(o, v, cm) <==> (o.nullable && v.JNull?) || AnyOfOk(Variants(os), v, cm)
  {
    assert Constraints(o, v, cm) <==> AnyOfOk(o.anyOf, v, cm);
  }

  /** A rewritten `anyOf` reads its null variants as null, and the others as they are. */
  lemma AnyOfMeaning(d: Out, outs: seq<Out>, v: Json, cm: Meaning)
    requires d.ONode? && Core(d) == EMPTY.(anyOf := Variants(outs))
    ensures OValid(Finish(d), v, cm) <==> (HasNull(outs) && v.JNull?) || NonNullAccepts(outs, v, cm)
  {
    FinishAnyOf(d, outs);
    NonNullHas(outs);
    NonNullAcceptsIn(outs, v, cm);
    var nn := NonNull(outs);
    if HasNull(outs) && |nn| == 1 {
      SpreadMeaning(nn[0], d.(anyOf := NoVariants), v, cm);
      assert AnyOfOk(Variants(nn), v, cm) <==> OValid(nn[0], v, cm);
    } else {
      OnlyAnyOf(Finish(d), nn, v, cm);
    }
  }

  lemma AnyOfShape(d: Out, outs: seq<Out>)
    requires d.ONode? && Core(d) == EMPTY.(anyOf := Variants(outs))
    ensures IsNullSchema(Finish(d)) ==> HasNull(outs) && HasBlank(outs)
    ensures !Blank(Finish(d))
  {
    FinishAnyOf(d, outs);
    NonNullHas(outs);
    var nn := NonNull(outs);
    if HasNull(outs) && |nn| == 1 && IsNullSchema(Finish(d)) {
      var x := nn[0];
      assert x in nn && x in outs;
      assert x.ONode?;
      assert Blank(x);
      var i :| 0 <= i < |outs| && outs[i] == x;
      assert Blank(outs[i]);
    }
  }

  // ----- flattening `allOf` -----

  lemma {:induction false} MergedHas(parts: seq<Out>)
    requires AllPlain(parts)
    ensures forall k | k in MergedProps(parts) ::
              exists i | 0 <= i < |parts| :: k in parts[i].props.value && MergedProps(parts)[k] == parts[i].props.value[k]
    ensures forall r | r in MergedRequired(parts) ::
              exists i | 0 <= i < |parts| :: parts[i].required.Some? && r in parts[i].required.value
  {
    if parts != [] {
      var n := |parts| - 1;
      MergedHas(parts[..n]);
      assert forall i | 0 <= i < n :: parts[..n][i] == parts[i];
    }
  }

  lemma {:induction false} MergedKeeps(parts: seq<Out>, i: nat)
    requires AllPlain(parts) && DisjointParts(parts) && i < |parts|
    ensures forall k | k in parts[i].props.value :: k in MergedProps(parts) && MergedProps(parts)[k] == parts[i].props.value[k]
    ensures parts[i].required.Some? ==> parts[i].required.value <= MergedRequired(parts)
  {
    var n := |parts| - 1;
    if i < n {
      assert forall j | 0 <= j < n :: parts[..n][j] == parts[j];
      MergedKeeps(parts[..n], i);
      assert OutNames(parts[i]) !! OutNames(parts[n]);
    }
  }

  lemma FinishAllOf(d: Out, outs: seq<Out>)
    requires d.ONode? && Core(d) == EMPTY.(allOf := Variants(outs))
    ensures Finish(d) == FlattenAllOf(d)
    ensures !IsNullSchema(Finish(d)) && !Blank(Finish(d))
  {
  }

  lemma PlainMeans(o: Out, v: Json, cm: Meaning)
    requires PlainObject(o) && OValid(o, v, cm)
    ensures v.JObj? && RequiredOk(o.required, v) && PropsOk(o.props, v, cm)
  {
  }

  lemma OnlyAllOf(o: Out, os: seq<Out>, v: Json, cm: Meaning)
    requires o.ONode? && Core(o) == EMPTY.(allOf := Variants(os))
    ensures OValid(o, v, cm) <==> AllOfOk(Variants(os), v, cm)
  {
    assert Constraints(o, v, cm) <==> AllOfOk(o.allOf, v, cm);
  }

  lemma FlatMeans(r: Out, v: Json, cm: Meaning)
    requires PlainObject(r) && PartOnly(r)
    ensures OValid(r, v, cm) <==> v.JObj? && RequiredOk(r.required, v) && PropsOk(r.props, v, cm)
  {
    assert Constraints(r, v, cm) <==> DraftOk(r, OutNames(r), v, cm);
  }

  lemma AllOfSound(d: Out, outs: seq<Out>, v: Json, cm: Meaning)
    requires d.ONode? && Core(d) == EMPTY.(allOf := Variants(outs))
    requires AllOfOk(Variants(outs), v, cm)
    ensures OValid(Finish(d), v, cm)
  {
    FinishAllOf(d, outs);
    var r := Finish(d);
    if AllPlain(outs) && |outs| > 1 {
      assert OValid(outs[0], v, cm);
      forall i | 0 <= i < |outs| ensures v.JObj? && RequiredOk(outs[i].required, v) && PropsOk(outs[i].props, v, cm) {
        PlainMeans(outs[i], v, cm);
      }
      MergedHas(outs);
      FlatMeans(r, v, cm);
      forall k | k in r.props.value && k in v.members ensures OValid(r.props.value[k], v.members[k], cm) {
        var i :| 0 <= i < |outs| && k in outs[i].props.value && r.props.value[k] == outs[i].props.value[k];
        assert PropsOk(outs[i].props, v, cm);
      }
      assert PropsOk(r.props, v, cm);
    } else {
      OnlyAllOf(d, outs, v, cm);
    }
  }

  lemma AllOfExact(d: Out, outs: seq<Out>, v: Json, cm: Meaning)
    requires d.ONode? && Core(d) == EMPTY.(allOf := Variants(outs))
    requires AllPlain(outs) && |outs| > 1 ==> (forall i | 0 <= i < |outs| :: PartOnly(outs[i])) && DisjointParts(outs)
    requires OValid(Finish(d), v, cm)
    ensures AllOfOk(Variants(outs), v, cm)
  {
    FinishAllOf(d, outs);
    var r := Finish(d);
    if AllPlain(outs) && |outs| > 1 {
      FlatMeans(r, v, cm);
      forall i | 0 <= i < |outs| ensures OValid(outs[i], v, cm) {
        MergedKeeps(outs, i);
        forall k | k in outs[i].props.value && k in v.members ensures OValid(outs[i].props.value[k], v.members[k], cm) {
          assert r.props.value[k] == outs[i].props.value[k];
        }
        assert PropsOk(outs[i].props, v, cm);
        FlatMeans(outs[i], v, cm);
      }
    } else {
      OnlyAllOf(d, outs, v, cm);
    }
  }

  // ----- one object of the translation -----

  lemma {:induction false} DraftBare(es: seq<Entry>, outss: seq<seq<Out>>)
    requires Fits(es, outss)
    requires forall i | 0 <= i < |es| :: es[i].Leaf? && (es[i].leaf.Type? || es[i].leaf.Default? || es[i].leaf.Dropped?)
    ensures Draft(es, outss) == EMPTY.(typ := TypeOf(es), default := Draft(es, outss).default)
  {
    if es != [] {
      DraftBare(es[..|es| - 1], outss[..|es| - 1]);
    }
  }

  lemma CombinatorValid(es: seq<Entry>, i: nat, w: Json, m: Meaning)
    requires InFragment(es) && i < |es| && Combinator(es[i])
    ensures Valid(Obj(es), w, m) <==> EntryOk(es[i], PropNames(es), w, m)
  {
    forall j | 0 <= j < |es| && j != i ensures EntryOk(es[j], PropNames(es), w, m) {
      assert Annotation(es[j]);
    }
  }

  lemma AnyOfAgreesOn(side: Side, es: seq<Entry>, outss: seq<seq<Out>>, i: nat, w: Json, m: Meaning, cm: Meaning)
    requires Fits(es, outss) && InFragment(es) && m.ext == cm.ext
    requires AllKidsAgree(side, es, outss, m, cm) && AllOutsFit(side.exact, es, outss)
    requires i < |es| && Combinator(es[i]) && es[i].kw.AnyOf?
    ensures AgreesOn(side, Obj(es), Finish(Draft(es, outss)), w, m, cm)
  {
    var d, kids, outs := Draft(es, outss), es[i].kids, outss[i];
    DraftCombinator(es, outss, i);
    CombinatorValid(es, i, w, m);
    AnyOfMeaning(d, outs, w, cm);
    AnyOfShape(d, outs);
    assert OutsFit(side.exact, es[i], outs);
    assert KidsAgree(side, kids, outs, m, cm);
    if Valid(Obj(es), w, m) {
      var k :| 0 <= k < |kids| && Valid(kids[k].schema, w, m);
      assert AgreesOn(side, kids[k].schema, outs[k], w, m, cm);
    }
    if side.exact && OValid(Finish(d), w, cm) {
      if HasNull(outs) && w.JNull? {
        var k :| 0 <= k < |outs| && IsNullSchema(outs[k]);
        assert AgreesOn(side, kids[k].schema, outs[k], w, m, cm);
        assert Valid(kids[k].schema, w, m);
      } else {
        var k :| 0 <= k < |outs| && !IsNullSchema(outs[k]) && OValid(outs[k], w, cm);
        assert AgreesOn(side, kids[k].schema, outs[k], w, m, cm);
        assert Valid(kids[k].schema, w, m);
      }
    }
  }

  lemma AllOfAgreesOn(side: Side, es: seq<Entry>, outss: seq<seq<Out>>, i: nat, w: Json, m: Meaning, cm: Meaning)
    requires Fits(es, outss) && InFragment(es) && m.ext == cm.ext
    requires AllKidsAgree(side, es, outss, m, cm) && AllOutsFit(side.exact, es, outss)
    requires i < |es| && Combinator(es[i]) && es[i].kw.AllOf?
    ensures AgreesOn(side, Obj(es), Finish(Draft(es, outss)), w, m, cm)
  {
    var d, kids, outs := Draft(es, outss), es[i].kids, outss[i];
    DraftCombinator(es, outss, i);
    CombinatorValid(es, i, w, m);
    FinishAllOf(d, outs);
    assert OutsFit(side.exact, es[i], outs);
    assert KidsAgree(side, kids, outs, m, cm);
    forall k | 0 <= k < |kids| ensures AgreesOn(side, kids[k].schema, outs[k], w, m, cm) {
      assert Agrees(side, kids[k].schema, outs[k], m, cm);
    }
    if side.sound && Valid(Obj(es), w, m) {
      forall k | 0 <= k < |outs| ensures OValid(outs[k], w, cm) {
        assert Valid(kids[k].schema, w, m);
      }
      AllOfSound(d, outs, w, cm);
    }
    if side.exact && OValid(Finish(d), w, cm) {
      AllOfExact(d, outs, w, cm);
      forall k | 0 <= k < |kids| ensures Valid(kids[k].schema, w, m) {
        assert OValid(outs[k], w, cm);
      }
    }
  }

  lemma PlainSound(side: Side, es: seq<Entry>, outss: seq<seq<Out>>, w: Json, m: Meaning, cm: Meaning)
    requires side.sound && Fits(es, outss) && InFragment(es) && m.ext == cm.ext && AllKidsAgree(side, es, outss, m, cm)
    requires forall i | 0 <= i < |es| :: !Combinator(es[i])
    requires Valid(Obj(es), w, m)
    ensures OValid(Finish(Draft(es, outss)), w, cm)
    ensures IsNullSchema(Finish(Draft(es, outss))) ==> w.JNull?
  {
    var d, names := Draft(es, outss), PropNames(es);
    assert forall i | 0 <= i < |es| :: EntryInFragment(es[i]);
    DraftPlain(es, outss);
    DraftShape(es, outss);
    DraftNames(es, outss);
    FinishPlainShape(d);
    DraftSound(side, es, outss, names, w, m, cm);
    assert Constraints(d, w, cm) <==> DraftOk(d, names, w, cm);
    TypeListDisjoint(es);
    FinishPlainSound(d, w, cm);
  }

  lemma PlainExact(side: Side, es: seq<Entry>, outss: seq<seq<Out>>, w: Json, m: Meaning, cm: Meaning)
    requires side.exact && Fits(es, outss) && InFragment(es) && m.ext == cm.ext && ExactEntries(es)
    requires forall k, j :: cm.ext(k, j, JNull)
    requires AllKidsAgree(side, es, outss, m, cm) && AllOutsFit(side.exact, es, outss)
    requires forall i | 0 <= i < |es| :: !Combinator(es[i])
    requires OValid(Finish(Draft(es, outss)), w, cm)
    requires IsNullSchema(Finish(Draft(es, outss))) ==> w.JNull?
    ensures Valid(Obj(es), w, m)
  {
    var d, names := Draft(es, outss), PropNames(es);
    DraftPlain(es, outss);
    DraftShape(es, outss);
    DraftNames(es, outss);
    FinishPlainShape(d);
    assert Constraints(d, w, cm) <==> DraftOk(d, names, w, cm);
    if TypeOf(es) == One(TNull) {
      DraftBare(es, outss);
    } else {
      FinishPlainExact(d, w, cm);
    }
    SlotsApart(es);
    DraftExact(side, es, outss, names, w, m, cm);
  }

  lemma SlotsApart(es: seq<Entry>)
    requires InFragment(es) && ExactEntries(es) && forall i | 0 <= i < |es| :: !Combinator(es[i])
    ensures forall i | 0 <= i < |es| :: EntryInFragment(es[i]) && KeyOf(es[i]) != KAnyOf
    ensures forall i, j | 0 <= i < j < |es| :: Slot(es[i]) != Slot(es[j])
  {
  }

  lemma AgreesOnFrom(side: Side, s: Schema, o: Out, w: Json, m: Meaning, cm: Meaning)
    requires side.sound && Valid(s, w, m) ==> OValid(o, w, cm) && (IsNullSchema(o) ==> w.JNull?)
    requires side.exact && OValid(o, w, cm) && (IsNullSchema(o) ==> w.JNull?) ==> Valid(s, w, m)
    ensures AgreesOn(side, s, o, w, m, cm)
  {
    if IsNullSchema(o) && w.JNull? {
      assert o.(default := None).nullable || o.typ == One(TNull);
      assert OValid(o, w, cm);
    }
  }

  lemma PlainAgreesOn(side: Side, es: seq<Entry>, outss: seq<seq<Out>>, w: Json, m: Meaning, cm: Meaning)
    requires Fits(es, outss) && InFragment(es) && m.ext == cm.ext
    requires side.exact ==> ExactEntries(es) && forall k, j :: cm.ext(k, j, JNull)
    requires AllKidsAgree(side, es, outss, m, cm) && AllOutsFit(side.exact, es, outss)
    requires forall i | 0 <= i < |es| :: !Combinator(es[i])
    ensures AgreesOn(side, Obj(es), Finish(Draft(es, outss)), w, m, cm)
  {
    var s, o := Obj(es), Finish(Draft(es, outss));
    if side.sound && Valid(s, w, m) {
      PlainSound(side, es, outss, w, m, cm);
    }
    if side.exact && OValid(o, w, cm) && (IsNullSchema(o) ==> w.JNull?) {
      PlainExact(side, es, outss, w, m, cm);
    }
    AgreesOnFrom(side, s, o, w, m, cm);
  }

  lemma {:induction false} TypeListDisjoint(es: seq<Entry>)
    requires forall i | 0 <= i < |es| :: EntryInFragment(es[i])
    ensures TypeOf(es).Many? ==> DisjointList(TypeOf(es).ts)
  {
    if es != [] {
      TypeListDisjoint(es[..|es| - 1]);
    }
  }

  /**
    One object keeps its meaning, whatever keywords it has: soundly on the fragment, and exactly when
    the exact conditions hold too.
  */
  lemma NodeAgrees(side: Side, es: seq<Entry>, outss: seq<seq<Out>>, m: Meaning, cm: Meaning)
    requires Fits(es, outss) && InFragment(es) && m.ext == cm.ext
    requires side.exact ==> ExactEntries(es) && forall k, j :: cm.ext(k, j, JNull)
    requires AllKidsAgree(side, es, outss, m, cm) && AllOutsFit(side.exact, es, outss)
    ensures Agrees(side, Obj(es), Finish(Draft(es, outss)), m, cm)
  {
    forall w ensures AgreesOn(side, Obj(es), Finish(Draft(es, outss)), w, m, cm) {
      if i :| 0 <= i < |es| && Combinator(es[i]) {
        if es[i].kw.AnyOf? {
          AnyOfAgreesOn(side, es, outss, i, w, m, cm);
        } else {
          AllOfAgreesOn(side, es, outss, i, w, m, cm);
        }
      } else {
        PlainAgreesOn(side, es, outss, w, m, cm);
      }
    }
  }
}
