/**
  Which source schemas are translated to a bare null, and which to an object without constraints: read off the
  source, through references that are written out where they are used.
*/
module NullLooks {
  import opened Options
  import opened JsonSchema
  import opened OpenApi
  import opened SchemaRewrite
  import opened SchemaMeaning
  import opened ComponentNames
  import opened Registry
  import opened RegistrySafety

  /** A definition without a name of its own is written out where it is used. */
  predicate Anonymous(d: string)
  {
    ComponentNameFor(d).None?
  }

  lemma AnyJsonIsNamed(d: string)
    ensures IsAnyJson(d) ==> !Anonymous(d)
  {
    if IsAnyJson(d) {
      var last := LastSegment(d);
      assert last[0] in {'J', 'I'};
    }
  }

  /** A key that the null test ignores. */
  predicate Ignored(e: Entry)
  {
    e.Leaf? && (e.leaf.Default? || e.leaf.Dropped?)
  }

  /** The schema says nothing at all. */
  predicate Vague(s: Schema)
  {
    match s
    case Obj(es) => forall i | 0 <= i < |es| :: Ignored(es[i])
    case Ref(t) => t.None?
    case _ => true
  }

  predicate Union(e: Entry)
  {
    e.Group? && (e.kw.AnyOf? || e.kw.OneOf?)
  }

  /** An object with nothing but a union. */
  predicate UnionAlone(es: seq<Entry>, u: nat)
  {
    u < |es| && Union(es[u]) && forall j | 0 <= j < |es| && j != u :: Ignored(es[j])
  }

  /** Says nothing, with at most `n` references followed. */
  predicate Vaguish(c: Context, n: nat, s: Schema)
    decreases n
  {
    match s
    case Ref(Some(d)) => n > 0 && Anonymous(d) && Vaguish(c, n - 1, Body(c, d))
    case _ => Vague(s)
  }

  /**
    Translated to a bare null, with at most `n` references followed: a written null, or a union of one schema
    that says nothing beside others of this kind.
  */
  predicate Nullish(c: Context, n: nat, s: Schema)
    decreases n, s
  {
    match s
    case Obj(es) => BareNullEntries(es) || exists u | 0 <= u < |es| :: UnionAlone(es, u) && OneVague(c, n, es[u].kids)
    case Ref(Some(d)) => n > 0 && Anonymous(d) && Nullish(c, n - 1, Body(c, d))
    case _ => false
  }

  predicate OneVague(c: Context, n: nat, kids: seq<Kid>)
    decreases n, kids
  {
    && |kids| > 1
    && exists k | 0 <= k < |kids| ::
         Vaguish(c, n, kids[k].schema) && forall i | 0 <= i < |kids| && i != k :: Nullish(c, n, kids[i].schema)
  }

  ghost predicate NullVariant(c: Context, s: Schema)
  {
    exists n: nat :: Nullish(c, n, s)
  }

  ghost predicate VagueVariant(c: Context, s: Schema)
  {
    exists n: nat :: Vaguish(c, n, s)
  }

  /** A JSON object has each key once, at any depth, and a `type` key has a value. */
  predicate Keyed(s: Schema)
    decreases s
  {
    s.Obj? ==> EntriesKeyed(s.entries)
  }

  predicate EntriesKeyed(es: seq<Entry>)
    decreases es
  {
    NodeKeyed(es) && forall i | 0 <= i < |es| && es[i].Group? :: KidsKeyed(es[i].kids)
  }

  /** The object itself. */
  predicate NodeKeyed(es: seq<Entry>)
  {
    UniqueKeys(es) && forall i | 0 <= i < |es| :: TypeGiven(es[i])
  }

  predicate TypeGiven(e: Entry)
  {
    e.Leaf? && e.leaf.Type? ==> !e.leaf.typ.NoType?
  }

  predicate KidsKeyed(kids: seq<Kid>)
    decreases kids
  {
    forall i | 0 <= i < |kids| :: Keyed(kids[i].schema)
  }

  predicate DefinitionsKeyed(c: Context)
  {
    forall d | d in c.definitions :: Keyed(c.definitions[d])
  }

  // ----- one object -----

  /** One variant without constraints, and bare nulls. */
  ghost predicate OneBlank(outs: seq<Out>)
  {
    |outs| > 1 && exists k | 0 <= k < |outs| :: Blank(outs[k]) && forall i | 0 <= i < |outs| && i != k :: IsNullSchema(outs[i])
  }

  lemma {:induction false} OneLeft(outs: seq<Out>, k: nat)
    requires k < |outs| && !IsNullSchema(outs[k]) && forall i | 0 <= i < |outs| && i != k :: IsNullSchema(outs[i])
    ensures NonNull(outs) == [outs[k]]
  {
    var n := |outs| - 1;
    if k == n {
      AllNull(outs[..n]);
    } else {
      OneLeft(outs[..n], k);
    }
  }

  lemma {:induction false} AllNull(outs: seq<Out>)
    requires forall i | 0 <= i < |outs| :: IsNullSchema(outs[i])
    ensures NonNull(outs) == []
  {
    if outs != [] { AllNull(outs[..|outs| - 1]); }
  }

  lemma {:induction false} LeftIsOne(outs: seq<Out>) returns (k: nat)
    requires |NonNull(outs)| == 1
    ensures k < |outs| && NonNull(outs) == [outs[k]] && !IsNullSchema(outs[k])
    ensures forall i | 0 <= i < |outs| && i != k :: IsNullSchema(outs[i])
  {
    var n := |outs| - 1;
    if IsNullSchema(outs[n]) {
      k := LeftIsOne(outs[..n]);
    } else {
      k := n;
      NonNullHas(outs[..n]);
      assert NonNull(outs[..n]) == [];
      forall i | 0 <= i < n ensures IsNullSchema(outs[i]) { assert outs[..n][i] in outs[..n]; }
    }
  }

  /** What is left of a union's variants is one without constraints. */
  lemma OneBlankLeft(outs: seq<Out>)
    ensures OneBlank(outs) <==> |NonNull(outs)| == 1 != |outs| && Blank(NonNull(outs)[0])
  {
    if OneBlank(outs) {
      var k :| 0 <= k < |outs| && Blank(outs[k]) && forall i | 0 <= i < |outs| && i != k :: IsNullSchema(outs[i]);
      OneLeft(outs, k);
    }
    if |NonNull(outs)| == 1 != |outs| && Blank(NonNull(outs)[0]) {
      var k := LeftIsOne(outs);
    }
  }

  predicate OnlyAnyOf(d: Out)
    requires d.ONode?
  {
    d.anyOf.Variants? && d.(anyOf := NoVariants, default := None) == EMPTY
  }

  predicate OnlyOneOf(d: Out)
    requires d.ONode?
  {
    d.oneOf.Variants? && d.(oneOf := NoVariants, default := None) == EMPTY
  }

  lemma SpreadLooks(x: Out, o: Out)
    requires o.ONode? && !o.nullable && !IsNullSchema(x)
    ensures IsNullSchema(MarkNullable(Spread(WithNullable(x), o))) <==> Blank(x) && Blank(o)
    ensures !Blank(MarkNullable(Spread(WithNullable(x), o)))
  {
    var r := MarkNullable(Spread(WithNullable(x), o));
    if IsNullSchema(r) {
      assert r.(default := None) == EMPTY.(nullable := true);
      MapsEmpty(WithNullable(x).notes, o.notes);
      MapsEmpty(WithNullable(x).others, o.others);
    }
  }

  lemma MapsEmpty(a: map<string, Json>, b: map<string, Json>)
    requires a + b == map[]
    ensures a == map[] && b == map[]
  {
    forall k ensures k !in a && k !in b { assert k !in a + b; }
  }

  lemma AnyOfLooks(d: Out)
    requires d.ONode? && !d.nullable && !d.typ.Many? && d.anyOf.Variants?
    ensures IsNullSchema(Finish(d)) <==> OnlyAnyOf(d) && OneBlank(d.anyOf.list)
    ensures !Blank(Finish(d))
  {
    OneBlankLeft(d.anyOf.list);
    NonNullHas(d.anyOf.list);
    var nn := NonNull(d.anyOf.list);
    if |nn| == 1 != |d.anyOf.list| {
      assert nn[0] in nn;
      SpreadLooks(nn[0], d.(anyOf := NoVariants));
    } else {
      KeepsAnyOf(DropNullAnyOf(d).o);
    }
  }

  /** A union that is still there after its turn stays. */
  lemma KeepsAnyOf(o: Out)
    requires o.ONode? && o.anyOf.Variants?
    ensures var s := DropNullOneOf(o); var r := if s.Returned? then s.o else Late(s.o); !IsNullSchema(r) && !Blank(r)
  {
    var s := DropNullOneOf(o);
    if !s.Returned? { LateKeeps(s.o); }
  }

  predicate SameUnions(a: Out, b: Out)
    requires a.ONode? && b.ONode?
  {
    a.anyOf == b.anyOf && a.oneOf == b.oneOf
  }

  lemma LateKeeps(o: Out)
    requires o.ONode?
    ensures SameUnions(Late(o), o)
  {
    var f := FlattenAllOf(BareNull(o));
    assert SameUnions(BareNull(o), o);
    assert SameUnions(f, BareNull(o));
    assert SameUnions(EnumNull(f), f);
    KindKeeps(EnumNull(f));
  }

  lemma KindKeeps(o: Out)
    requires o.ONode?
    ensures SameUnions(EnumKind(o), o)
    ensures !o.typ.NoType? ==> EnumKind(o) == o
  {
  }

  lemma OneOfLooks(d: Out)
    requires d.ONode? && !d.nullable && !d.typ.Many? && d.anyOf.NoVariants? && d.oneOf.Variants?
    ensures IsNullSchema(Finish(d)) <==> OnlyOneOf(d) && OneBlank(d.oneOf.list)
    ensures !Blank(Finish(d))
  {
    OneBlankLeft(d.oneOf.list);
    NonNullHas(d.oneOf.list);
    var nn := NonNull(d.oneOf.list);
    if |nn| == 1 != |d.oneOf.list| {
      assert nn[0] in nn;
      SpreadLooks(nn[0], d.(oneOf := NoVariants));
    } else {
      LateKeeps(DropNullOneOf(d).o);
    }
  }

  lemma PlainLooks(d: Out)
    requires d.ONode? && !d.nullable && !d.typ.Many? && d.anyOf.NoVariants? && d.oneOf.NoVariants?
    ensures IsNullSchema(Finish(d)) <==> d.(default := None) == EMPTY.(typ := One(TNull))
    ensures Blank(Finish(d)) <==> Blank(d)
  {
    assert Finish(d) == Late(d);
    if d.allOf.NoVariants? {
      FinishPlain(d);
    } else {
      FlattenedLooks(BareNull(d));
    }
  }

  lemma FlattenedLooks(o: Out)
    requires o.ONode? && o.allOf.Variants?
    ensures var f := EnumKind(EnumNull(FlattenAllOf(o))); !IsNullSchema(f) && !Blank(f)
  {
  }

  predicate Typed(o: Out)
  {
    o.ONode? && o.typ.One? && !o.typ.t.TNull?
  }

  /** A type other than null stays. */
  lemma TypedLooks(s: Out)
    requires Typed(s)
    ensures var a := DropNullAnyOf(s);
      var b := if a.Returned? then a else DropNullOneOf(a.o);
      Typed(if b.Returned? then b.o else Late(b.o))
  {
    var a := DropNullAnyOf(s);
    assert Typed(a.o);
    var b := if a.Returned? then a else DropNullOneOf(a.o);
    assert Typed(b.o);
    LateTyped(b.o);
  }

  lemma LateTyped(o: Out)
    requires Typed(o)
    ensures Typed(Late(o))
  {
    assert BareNull(o) == o && Typed(FlattenAllOf(o));
    KindKeeps(EnumNull(FlattenAllOf(o)));
  }

  lemma ListOfOne(d: Out)
    requires d.ONode? && d.typ.Many? && |NonNullTypes(d.typ.ts)| == 1
    ensures Typed(Finish(d))
  {
    NonNullTypesHas(d.typ.ts);
    assert NonNullTypes(d.typ.ts)[0] in NonNullTypes(d.typ.ts);
    TypedLooks(SplitTypes(d));
  }

  lemma NoNullVariant(d: Out)
    requires d.ONode? && d.typ.Many? && |NonNullTypes(d.typ.ts)| != 1
    ensures SplitTypes(d).anyOf.NoVariants? && SplitTypes(d).oneOf.Variants?
    ensures !HasNull(SplitTypes(d).oneOf.list)
  {
    var ts := NonNullTypes(d.typ.ts);
    NonNullTypesHas(d.typ.ts);
    var vs := TypeVariants(d, ts);
    forall i | 0 <= i < |vs| ensures !IsNullSchema(vs[i]) { assert ts[i] in ts; }
  }

  lemma ListOfMore(d: Out)
    requires d.ONode? && d.typ.Many? && |NonNullTypes(d.typ.ts)| != 1
    ensures Finish(d).oneOf.Variants?
  {
    var s := SplitTypes(d);
    NoNullVariant(d);
    NonNullHas(s.oneOf.list);
    assert DropNullAnyOf(s) == Go(s) && DropNullOneOf(s) == Go(s);
    LateKeeps(s);
  }

  // ----- the draft, key by key -----

  /** The keyword left a trace in the draft. */
  predicate Filled(d: Out, e: Entry)
    requires d.ONode?
  {
    match e
    case Leaf(Type(_)) => true
    case Leaf(Default(_)) => true
    case Leaf(Dropped(_, _)) => true
    case Leaf(Note(k, _)) => d.notes != map[]
    case Leaf(Other(k, _)) => d.others != map[]
    case _ => !Free(d, Slot(e))
  }

  lemma AssignFills(d: Out, e: Entry, outs: seq<Out>)
    requires d.ONode? && (e.Group? ==> |outs| == |e.kids|)
    ensures Filled(Assign(d, e, outs), e)
  {
    match e
    case Leaf(Note(k, j)) => assert k in d.notes[k := j];
    case Leaf(Other(k, j)) => assert k in d.others[k := j];
    case _ =>
  }

  lemma AssignKeepsFilled(d: Out, a: Entry, outs: seq<Out>, e: Entry)
    requires d.ONode? && (a.Group? ==> |outs| == |a.kids|) && Filled(d, e)
    ensures Filled(Assign(d, a, outs), e)
  {
    match a
    case Leaf(Note(k, j)) => assert k in d.notes[k := j];
    case Leaf(Other(k, j)) => assert k in d.others[k := j];
    case Leaf(l) => match l { case Type(_) => case Enum(_) => case Const(_) => case Required(_) => case _ => }
    case Group(kw, _) => match kw { case Properties => case Items => case Tuple => case AnyOf => case _ => }
  }

  lemma {:induction false} DraftFilled(es: seq<Entry>, outss: seq<seq<Out>>)
    requires Fits(es, outss)
    ensures forall i | 0 <= i < |es| :: Filled(Draft(es, outss), es[i])
  {
    if es != [] {
      var n := |es| - 1;
      var d := Draft(es[..n], outss[..n]);
      DraftFilled(es[..n], outss[..n]);
      forall i | 0 <= i < n ensures Filled(Assign(d, es[n], outss[n]), es[i]) {
        assert Filled(d, es[..n][i]);
        AssignKeepsFilled(d, es[n], outss[n], es[i]);
      }
      AssignFills(d, es[n], outss[n]);
    }
  }

  lemma {:induction false} NoTypeKey(es: seq<Entry>)
    requires TypeOf(es).NoType? && forall i | 0 <= i < |es| :: TypeGiven(es[i])
    ensures forall i | 0 <= i < |es| && es[i].Leaf? :: !es[i].leaf.Type?
  {
    if es != [] {
      var n := |es| - 1;
      NoTypeKey(es[..n]);
      forall i | 0 <= i < n && es[i].Leaf? ensures !es[i].leaf.Type? {
        assert es[..n][i] == es[i];
      }
    }
  }

  lemma {:induction false} NoTypeOf(es: seq<Entry>)
    requires forall i | 0 <= i < |es| && es[i].Leaf? :: !es[i].leaf.Type?
    ensures TypeOf(es).NoType?
  {
    if es != [] { NoTypeOf(es[..|es| - 1]); }
  }

  /** The same, a default apart. */
  predicate BareApart(d: Out, o: Out)
  {
    d.ONode? && d.(default := None) == o
  }

  lemma BareTrace(d: Out, e: Entry)
    requires d.ONode? && d == EMPTY.(typ := d.typ, default := d.default) && Filled(d, e)
    ensures e.Leaf? && (e.leaf.Type? || e.leaf.Default? || e.leaf.Dropped?)
  {
  }

  lemma BareDraft(es: seq<Entry>, outss: seq<seq<Out>>)
    requires Fits(es, outss) && forall i | 0 <= i < |es| :: TypeGiven(es[i])
    ensures BareApart(Draft(es, outss), EMPTY.(typ := One(TNull))) <==> BareNullEntries(es)
    ensures Blank(Draft(es, outss)) <==> Vague(Obj(es))
  {
    var d := Draft(es, outss);
    DraftShape(es, outss);
    DraftFilled(es, outss);
    if d.(default := None, typ := NoType) == EMPTY {
      assert d == EMPTY.(typ := d.typ, default := d.default);
      forall i | 0 <= i < |es| ensures es[i].Leaf? && (es[i].leaf.Type? || es[i].leaf.Default? || es[i].leaf.Dropped?) {
        BareTrace(d, es[i]);
      }
      if Blank(d) { NoTypeKey(es); }
    }
    if BareNullEntries(es) { DraftBare(es, outss); }
    if Vague(Obj(es)) {
      DraftBare(es, outss);
      NoTypeOf(es);
    }
  }

  // ----- a union alone -----

  function WithUnion(kw: GroupKw, outs: seq<Out>): (d: Out)
    ensures d.ONode?
  {
    if kw.AnyOf? then EMPTY.(anyOf := Variants(outs)) else EMPTY.(oneOf := Variants(outs))
  }

  lemma {:induction false} UnionDraft(es: seq<Entry>, outss: seq<seq<Out>>, u: nat)
    requires Fits(es, outss) && UnionAlone(es, u)
    ensures BareApart(Draft(es, outss), WithUnion(es[u].kw, outss[u]))
  {
    var n := |es| - 1;
    if u == n {
      BareDraftOf(es[..n], outss[..n]);
    } else {
      UnionDraft(es[..n], outss[..n], u);
    }
  }

  lemma {:induction false} BareDraftOf(es: seq<Entry>, outss: seq<seq<Out>>)
    requires Fits(es, outss) && forall j | 0 <= j < |es| :: Ignored(es[j])
    ensures BareApart(Draft(es, outss), EMPTY)
  {
    if es != [] { BareDraftOf(es[..|es| - 1], outss[..|es| - 1]); }
  }

  ghost predicate UnionOfBlank(es: seq<Entry>, outss: seq<seq<Out>>)
    requires |es| == |outss|
  {
    exists u | 0 <= u < |es| :: UnionAlone(es, u) && OneBlank(outss[u])
  }

  predicate BareUnion(d: Out, e: Entry)
    requires d.ONode?
  {
    e.Group? && ((OnlyAnyOf(d) && e.kw.AnyOf?) || (OnlyOneOf(d) && e.kw.OneOf?))
  }

  lemma UnionTrace(d: Out, e: Entry)
    requires d.ONode? && (OnlyAnyOf(d) || OnlyOneOf(d)) && Filled(d, e)
    ensures (e.Leaf? && e.leaf.Type?) || Ignored(e) || BareUnion(d, e)
  {
  }

  /** A draft that holds nothing but a union comes from an object with nothing but one. */
  lemma UnionFound(es: seq<Entry>, outss: seq<seq<Out>>) returns (u: nat)
    requires Fits(es, outss) && NodeKeyed(es) && (OnlyAnyOf(Draft(es, outss)) || OnlyOneOf(Draft(es, outss)))
    ensures UnionAlone(es, u)
  {
    var d := Draft(es, outss);
    DraftShape(es, outss);
    DraftFilled(es, outss);
    NoTypeKey(es);
    forall i | 0 <= i < |es| ensures Ignored(es[i]) || BareUnion(d, es[i]) { UnionTrace(d, es[i]); }
    if forall i | 0 <= i < |es| :: Ignored(es[i]) {
      BareDraftOf(es, outss);
      assert false;
    }
    u :| 0 <= u < |es| && !Ignored(es[u]);
    forall j | 0 <= j < |es| && j != u ensures Ignored(es[j]) {
      assert KeyOf(es[j]) != KeyOf(es[u]);
    }
  }

  lemma UnionLooks(es: seq<Entry>, outss: seq<seq<Out>>)
    requires Fits(es, outss) && NodeKeyed(es)
    ensures var d := Draft(es, outss);
      (OnlyAnyOf(d) && OneBlank(d.anyOf.list)) || (OnlyOneOf(d) && OneBlank(d.oneOf.list)) <==> UnionOfBlank(es, outss)
  {
    var d := Draft(es, outss);
    if OnlyAnyOf(d) || OnlyOneOf(d) {
      var u := UnionFound(es, outss);
      UnionDraft(es, outss, u);
    }
    if UnionOfBlank(es, outss) {
      var u :| 0 <= u < |es| && UnionAlone(es, u) && OneBlank(outss[u]);
      UnionDraft(es, outss, u);
    }
  }

  /** One object: when it is translated to a bare null, and when to an object without constraints. */
  lemma NodeLooks(es: seq<Entry>, outss: seq<seq<Out>>)
    requires Fits(es, outss) && NodeKeyed(es)
    ensures IsNullSchema(Finish(Draft(es, outss))) <==> BareNullEntries(es) || UnionOfBlank(es, outss)
    ensures Blank(Finish(Draft(es, outss))) <==> Vague(Obj(es))
  {
    BareDraft(es, outss);
    UnionLooks(es, outss);
    DraftShape(es, outss);
    FinishLooks(Draft(es, outss));
  }

  lemma FinishLooks(d: Out)
    requires d.ONode? && !d.nullable
    ensures IsNullSchema(Finish(d)) <==>
            || BareApart(d, EMPTY.(typ := One(TNull)))
            || (OnlyAnyOf(d) && OneBlank(d.anyOf.list))
            || (OnlyOneOf(d) && OneBlank(d.oneOf.list))
    ensures Blank(Finish(d)) <==> Blank(d)
  {
    if d.typ.Many? {
      if |NonNullTypes(d.typ.ts)| == 1 { ListOfOne(d); } else { ListOfMore(d); }
    } else if d.anyOf.Variants? {
      AnyOfLooks(d);
    } else if d.oneOf.Variants? {
      OneOfLooks(d);
    } else {
      PlainLooks(d);
    }
  }

  // ----- more references followed -----

  /** Both kinds, written out. */
  lemma Written(c: Context, s: Schema)
    ensures Vague(s) ==> VagueVariant(c, s)
    ensures s.Obj? && BareNullEntries(s.entries) ==> NullVariant(c, s)
  {
    if Vague(s) { assert Vaguish(c, 0, s); }
    if s.Obj? && BareNullEntries(s.entries) { assert Nullish(c, 0, s); }
  }

  lemma {:induction false} VaguishMore(c: Context, n: nat, k: nat, s: Schema)
    requires Vaguish(c, n, s) && n <= k
    ensures Vaguish(c, k, s)
    decreases n
  {
    if s.Ref? && s.target.Some? { VaguishMore(c, n - 1, k - 1, Body(c, s.target.value)); }
  }

  lemma {:induction false} NullishMore(c: Context, n: nat, k: nat, s: Schema)
    requires Nullish(c, n, s) && n <= k
    ensures Nullish(c, k, s)
    decreases n, s
  {
    match s
    case Ref(Some(d)) => NullishMore(c, n - 1, k - 1, Body(c, d));
    case Obj(es) =>
      if !BareNullEntries(es) {
        var u :| 0 <= u < |es| && UnionAlone(es, u) && OneVague(c, n, es[u].kids);
        OneVagueMore(c, n, k, es[u].kids);
      }
    case _ =>
  }

  lemma {:induction false} OneVagueMore(c: Context, n: nat, k: nat, kids: seq<Kid>)
    requires OneVague(c, n, kids) && n <= k
    ensures OneVague(c, k, kids)
    decreases n, kids
  {
    var v :| 0 <= v < |kids| && Vaguish(c, n, kids[v].schema)
             && forall i | 0 <= i < |kids| && i != v :: Nullish(c, n, kids[i].schema);
    VaguishMore(c, n, k, kids[v].schema);
    forall i | 0 <= i < |kids| && i != v ensures Nullish(c, k, kids[i].schema) {
      NullishMore(c, n, k, kids[i].schema);
    }
  }

  /** Of either kind. */
  predicate Light(c: Context, n: nat, s: Schema)
  {
    Nullish(c, n, s) || Vaguish(c, n, s)
  }

  lemma LightMore(c: Context, n: nat, k: nat, s: Schema)
    requires Light(c, n, s) && n <= k
    ensures Light(c, k, s)
  {
    if Nullish(c, n, s) { NullishMore(c, n, k, s); } else { VaguishMore(c, n, k, s); }
  }

  /** Finitely many schemas need one number of references only. */
  lemma {:induction false} OneBound(c: Context, kids: seq<Kid>, v: int) returns (n: nat)
    requires forall i | 0 <= i < |kids| && i != v :: NullVariant(c, kids[i].schema)
    ensures forall i | 0 <= i < |kids| && i != v :: Nullish(c, n, kids[i].schema)
    decreases |kids|
  {
    n := 0;
    if kids != [] {
      var last := |kids| - 1;
      forall i | 0 <= i < last && i != v ensures NullVariant(c, kids[..last][i].schema) { assert kids[..last][i] == kids[i]; }
      var a := OneBound(c, kids[..last], v);
      n := a;
      if last != v {
        var b: nat :| Nullish(c, b, kids[last].schema);
        n := if a < b then b else a;
        NullishMore(c, b, n, kids[last].schema);
      }
      forall i | 0 <= i < last && i != v ensures Nullish(c, n, kids[i].schema) {
        assert kids[..last][i] == kids[i];
        NullishMore(c, a, n, kids[i].schema);
      }
    }
  }

  // ----- the state of the registry -----

  ghost predicate LightDefinition(c: Context, d: string)
  {
    exists n: nat :: Light(c, n, Ref(Some(d)))
  }

  /** What is converted is a reference; an anonymous definition that got a component is none of the two kinds. */
  ghost predicate HeavyConverted(c: Context, r: Reg)
  {
    && (forall d | d in r.converted :: r.converted[d].ORef? && !LightDefinition(c, d))
    && (forall p | p in r.byFingerprint :: r.byFingerprint[p].ORef?)
  }

  /** The schema needs fewer references than the definition. */
  ghost predicate Shallower(c: Context, s: Schema, d: string)
  {
    exists n: nat :: Light(c, n, s) && !Light(c, n, Ref(Some(d)))
  }

  /** Whatever is being written out around the schema is deeper than it, if it is of one of the two kinds. */
  ghost predicate WithinDeeper(c: Context, inlining: set<string>, s: Schema)
  {
    forall d | d in inlining && LightDefinition(c, d) :: Shallower(c, s, d)
  }

  lemma NamedIsHeavy(c: Context, d: string)
    requires !Anonymous(d)
    ensures !LightDefinition(c, d) && !NullVariant(c, Ref(Some(d))) && !VagueVariant(c, Ref(Some(d)))
  {
  }

  lemma KidWithin(c: Context, inlining: set<string>, es: seq<Entry>, i: nat, k: nat)
    requires WithinDeeper(c, inlining, Obj(es)) && i < |es| && es[i].Group? && k < |es[i].kids|
    ensures WithinDeeper(c, inlining, es[i].kids[k].schema)
  {
    forall d | d in inlining && LightDefinition(c, d) ensures Shallower(c, es[i].kids[k].schema, d) {
      var n: nat :| Light(c, n, Obj(es)) && !Light(c, n, Ref(Some(d)));
      KidLight(c, n, es, i, k);
    }
  }

  lemma KidLight(c: Context, n: nat, es: seq<Entry>, i: nat, k: nat)
    requires Light(c, n, Obj(es)) && i < |es| && es[i].Group? && k < |es[i].kids|
    ensures Light(c, n, es[i].kids[k].schema)
  {
    assert !Ignored(es[i]) && !Vague(Obj(es)) && !BareNullEntries(es);
    var u :| 0 <= u < |es| && UnionAlone(es, u) && OneVague(c, n, es[u].kids);
    assert u == i;
  }

  /** Writing out one more definition. */
  lemma InlineWithin(c: Context, inlining: set<string>, d: string)
    requires WithinDeeper(c, inlining, Ref(Some(d))) && Anonymous(d)
    ensures WithinDeeper(c, inlining + {d}, Body(c, d))
  {
    forall e | e in inlining + {d} && LightDefinition(c, e) ensures Shallower(c, Body(c, d), e) {
      if e in inlining {
        var n: nat :| Light(c, n, Ref(Some(d))) && !Light(c, n, Ref(Some(e)));
        LightBelow(c, n, d, e);
      } else {
        var n: nat :| Light(c, n, Ref(Some(d)));
        var k := LeastLight(c, n, d);
        assert Light(c, k, Body(c, d));
      }
    }
  }

  lemma LightBelow(c: Context, n: nat, d: string, e: string)
    requires Light(c, n, Ref(Some(d))) && !Light(c, n, Ref(Some(e)))
    ensures Shallower(c, Body(c, d), e)
  {
    if Light(c, n - 1, Ref(Some(e))) { LightMore(c, n - 1, n, Ref(Some(e))); }
    assert Light(c, n - 1, Body(c, d));
  }

  /** The body needs one reference less than the least number for the definition. */
  lemma {:induction false} LeastLight(c: Context, n: nat, d: string) returns (k: nat)
    requires Light(c, n, Ref(Some(d)))
    ensures Light(c, k, Body(c, d)) && !Light(c, k, Ref(Some(d)))
  {
    if Light(c, n - 1, Ref(Some(d))) { k := LeastLight(c, n - 1, d); } else { k := n - 1; }
  }

  lemma HeavyWithin(c: Context, inlining: set<string>, d: string, s: Schema)
    requires WithinDeeper(c, inlining, Ref(Some(d))) && !LightDefinition(c, d)
    ensures WithinDeeper(c, inlining, s)
  {
    forall e | e in inlining ensures !LightDefinition(c, e) {}
  }

  /** A definition met while it is written out is of neither kind. */
  lemma MetAgain(c: Context, inlining: set<string>, d: string)
    requires WithinDeeper(c, inlining, Ref(Some(d))) && d in inlining
    ensures !LightDefinition(c, d)
  {
    assert LightDefinition(c, d) ==> Shallower(c, Ref(Some(d)), d);
  }

  // ----- every conversion -----

  /** The output looks like what the source says. */
  ghost predicate Looks(c: Context, s: Schema, o: Out)
  {
    (IsNullSchema(o) <==> NullVariant(c, s)) && (Blank(o) <==> VagueVariant(c, s))
  }

  ghost predicate KidsLook(c: Context, kids: seq<Kid>, outs: seq<Out>)
  {
    |kids| == |outs| && forall i | 0 <= i < |kids| :: Looks(c, kids[i].schema, outs[i])
  }

  ghost predicate EntriesLook(c: Context, es: seq<Entry>, outss: seq<seq<Out>>)
  {
    |es| == |outss| && forall i | 0 <= i < |es| && es[i].Group? :: KidsLook(c, es[i].kids, outss[i])
  }

  lemma OneVagueFrom(c: Context, kids: seq<Kid>, outs: seq<Out>) returns (n: nat)
    requires KidsLook(c, kids, outs) && OneBlank(outs)
    ensures OneVague(c, n, kids)
  {
    var k :| 0 <= k < |outs| && Blank(outs[k]) && forall i | 0 <= i < |outs| && i != k :: IsNullSchema(outs[i]);
    assert Looks(c, kids[k].schema, outs[k]);
    var a: nat :| Vaguish(c, a, kids[k].schema);
    forall i | 0 <= i < |kids| && i != k ensures NullVariant(c, kids[i].schema) { assert Looks(c, kids[i].schema, outs[i]); }
    var b := OneBound(c, kids, k);
    OneVagueAt(c, kids, k, a, b);
    n := if a < b then b else a;
  }

  lemma OneBlankFrom(c: Context, kids: seq<Kid>, outs: seq<Out>, n: nat)
    requires KidsLook(c, kids, outs) && OneVague(c, n, kids)
    ensures OneBlank(outs)
  {
    var k :| 0 <= k < |kids| && Vaguish(c, n, kids[k].schema)
             && forall i | 0 <= i < |kids| && i != k :: Nullish(c, n, kids[i].schema);
    assert Looks(c, kids[k].schema, outs[k]);
    forall i | 0 <= i < |outs| && i != k ensures IsNullSchema(outs[i]) { assert Looks(c, kids[i].schema, outs[i]); }
  }

  lemma OneVagueAt(c: Context, kids: seq<Kid>, k: nat, a: nat, b: nat)
    requires |kids| > 1 && k < |kids| && Vaguish(c, a, kids[k].schema)
    requires forall i | 0 <= i < |kids| && i != k :: Nullish(c, b, kids[i].schema)
    ensures OneVague(c, if a < b then b else a, kids)
  {
    var n := if a < b then b else a;
    VaguishMore(c, a, n, kids[k].schema);
    forall i | 0 <= i < |kids| && i != k ensures Nullish(c, n, kids[i].schema) { NullishMore(c, b, n, kids[i].schema); }
  }

  lemma ObjectLooks(c: Context, es: seq<Entry>, outss: seq<seq<Out>>)
    requires Fits(es, outss) && NodeKeyed(es) && EntriesLook(c, es, outss)
    ensures Looks(c, Obj(es), Finish(Draft(es, outss)))
  {
    NodeLooks(es, outss);
    assert VagueVariant(c, Obj(es)) <==> Vague(Obj(es)) by { assert Vague(Obj(es)) ==> Vaguish(c, 0, Obj(es)); }
    if UnionOfBlank(es, outss) { NullishFrom(c, es, outss); }
    if BareNullEntries(es) { assert Nullish(c, 0, Obj(es)); }
    if n: nat :| Nullish(c, n, Obj(es)) {
      if !BareNullEntries(es) { UnionOfBlankFrom(c, es, outss, n); }
    }
  }

  lemma NullishFrom(c: Context, es: seq<Entry>, outss: seq<seq<Out>>)
    requires EntriesLook(c, es, outss) && UnionOfBlank(es, outss)
    ensures NullVariant(c, Obj(es))
  {
    var u :| 0 <= u < |es| && UnionAlone(es, u) && OneBlank(outss[u]);
    var n := OneVagueFrom(c, es[u].kids, outss[u]);
    assert Nullish(c, n, Obj(es));
  }

  lemma UnionOfBlankFrom(c: Context, es: seq<Entry>, outss: seq<seq<Out>>, n: nat)
    requires EntriesLook(c, es, outss) && Nullish(c, n, Obj(es)) && !BareNullEntries(es)
    ensures UnionOfBlank(es, outss)
  {
    var u :| 0 <= u < |es| && UnionAlone(es, u) && OneVague(c, n, es[u].kids);
    OneBlankFrom(c, es[u].kids, outss[u], n);
  }

  lemma KidWithinAll(c: Context, inlining: set<string>, es: seq<Entry>, i: nat)
    requires WithinDeeper(c, inlining, Obj(es)) && i < |es| && es[i].Group?
    ensures AllWithin(c, inlining, es[i].kids)
  {
    forall k | 0 <= k < |es[i].kids| ensures WithinDeeper(c, inlining, es[i].kids[k].schema) {
      KidWithin(c, inlining, es, i, k);
    }
  }

  ghost predicate AllWithin(c: Context, inlining: set<string>, kids: seq<Kid>)
  {
    forall k | 0 <= k < |kids| :: WithinDeeper(c, inlining, kids[k].schema)
  }

  ghost predicate GroupsWithin(c: Context, inlining: set<string>, es: seq<Entry>)
  {
    forall i | 0 <= i < |es| && es[i].Group? :: AllWithin(c, inlining, es[i].kids)
  }

  /** What a conversion of `s` from `r` shows. */
  ghost predicate Shown(c: Context, s: Schema, res: Result<Out>)
  {
    HeavyConverted(c, res.reg) && Looks(c, s, res.out)
  }

  /**
    What an output looks like is read off the source: it is a bare null, or has no constraints, exactly when the
    source schema is of that kind. With source `oneOf`, tuples, and references of any depth.
  */
  lemma {:induction false} ConvertLooks(c: Context, r: Reg, s: Schema)
    requires Registry.Closed(c) && RefsIn(s, c.universe) && DefinitionsKeyed(c) && Keyed(s)
    requires HeavyConverted(c, r) && WithinDeeper(c, r.inlining, s)
    ensures Shown(c, s, ConvertF(c, r, s))
    decreases Todo(c, r), Open(c, r), s, 2
  {
    match s
    case Ref(Some(d)) => ResolveLooks(c, r, d);
    case Obj(es) =>
      forall i | 0 <= i < |es| && es[i].Group? ensures AllWithin(c, r.inlining, es[i].kids) && KidsKeyed(es[i].kids) {
        KidWithinAll(c, r.inlining, es, i);
      }
      EntriesLooks(c, r, es);
      ObjectLooks(c, es, EntriesF(c, r, es).out);
    case _ => NothingLooks(c, s);
  }

  lemma NothingLooks(c: Context, s: Schema)
    requires !s.Obj? && Vague(s)
    ensures Looks(c, s, EMPTY)
  {
    assert Vaguish(c, 0, s);
  }

  lemma {:induction false} EntriesLooks(c: Context, r: Reg, es: seq<Entry>)
    requires Registry.Closed(c) && EntriesRefsIn(es, c.universe) && DefinitionsKeyed(c) && EntriesKeyed(es)
    requires HeavyConverted(c, r) && GroupsWithin(c, r.inlining, es)
    ensures HeavyConverted(c, EntriesF(c, r, es).reg) && EntriesLook(c, es, EntriesF(c, r, es).out)
    decreases Todo(c, r), Open(c, r), es, 1
  {
    if es != [] {
      var n := |es| - 1;
      var before := EntriesF(c, r, es[..n]);
      assert NodeKeyed(es[..n]) by { FewerKeyed(es); }
      EntriesLooks(c, r, es[..n]);
      if es[n].Group? {
        LastGroupLooks(c, r, es, before.reg);
        EntriesLookMore(c, es, before.out, KidsF(c, before.reg, es[n].kids).out);
      } else {
        EntriesLookMore(c, es, before.out, []);
      }
    }
  }

  lemma FewerKeyed(es: seq<Entry>)
    requires es != [] && EntriesKeyed(es)
    ensures EntriesKeyed(es[..|es| - 1])
  {
  }

  lemma EntriesLookMore(c: Context, es: seq<Entry>, outss: seq<seq<Out>>, outs: seq<Out>)
    requires es != [] && EntriesLook(c, es[..|es| - 1], outss)
    requires es[|es| - 1].Group? ==> KidsLook(c, es[|es| - 1].kids, outs)
    ensures EntriesLook(c, es, outss + [outs])
  {
    forall i | 0 <= i < |es| - 1 && es[i].Group? ensures KidsLook(c, es[i].kids, outss[i]) {
      assert es[..|es| - 1][i] == es[i];
    }
  }

  lemma {:induction false} LastGroupLooks(c: Context, r: Reg, es: seq<Entry>, reg: Reg)
    requires Registry.Closed(c) && EntriesRefsIn(es, c.universe) && DefinitionsKeyed(c) && EntriesKeyed(es)
    requires es != [] && es[|es| - 1].Group? && GroupsWithin(c, r.inlining, es)
    requires r.converted.Keys <= reg.converted.Keys && reg.inlining == r.inlining && HeavyConverted(c, reg)
    ensures var res := KidsF(c, reg, es[|es| - 1].kids);
      HeavyConverted(c, res.reg) && KidsLook(c, es[|es| - 1].kids, res.out)
    decreases Todo(c, r), Open(c, r), es, 0
  {
    TodoShrinks(c, r, reg);
    KidsLooks(c, reg, es[|es| - 1].kids);
  }

  lemma {:induction false} KidsLooks(c: Context, r: Reg, kids: seq<Kid>)
    requires Registry.Closed(c) && KidsRefsIn(kids, c.universe) && DefinitionsKeyed(c) && KidsKeyed(kids)
    requires HeavyConverted(c, r) && AllWithin(c, r.inlining, kids)
    ensures HeavyConverted(c, KidsF(c, r, kids).reg) && KidsLook(c, kids, KidsF(c, r, kids).out)
    decreases Todo(c, r), Open(c, r), kids, 1
  {
    if kids != [] {
      var n := |kids| - 1;
      var before := KidsF(c, r, kids[..n]);
      KidsLooks(c, r, kids[..n]);
      LastKidLooks(c, r, kids, before.reg);
      KidsLookMore(c, kids, before.out, ConvertF(c, before.reg, kids[n].schema).out);
    }
  }

  lemma KidsLookMore(c: Context, kids: seq<Kid>, outs: seq<Out>, o: Out)
    requires kids != [] && KidsLook(c, kids[..|kids| - 1], outs) && Looks(c, kids[|kids| - 1].schema, o)
    ensures KidsLook(c, kids, outs + [o])
  {
    forall i | 0 <= i < |kids| - 1 ensures Looks(c, kids[i].schema, outs[i]) {
      assert kids[..|kids| - 1][i] == kids[i];
    }
  }

  lemma {:induction false} LastKidLooks(c: Context, r: Reg, kids: seq<Kid>, reg: Reg)
    requires Registry.Closed(c) && KidsRefsIn(kids, c.universe) && DefinitionsKeyed(c) && KidsKeyed(kids) && kids != []
    requires r.converted.Keys <= reg.converted.Keys && reg.inlining == r.inlining && HeavyConverted(c, reg)
    requires AllWithin(c, r.inlining, kids)
    ensures Shown(c, kids[|kids| - 1].schema, ConvertF(c, reg, kids[|kids| - 1].schema))
    decreases Todo(c, r), Open(c, r), kids, 0
  {
    TodoShrinks(c, r, reg);
    ConvertLooks(c, reg, kids[|kids| - 1].schema);
  }

  lemma {:induction false} ResolveLooks(c: Context, r: Reg, d: string)
    requires Registry.Closed(c) && d in c.universe && DefinitionsKeyed(c)
    requires HeavyConverted(c, r) && WithinDeeper(c, r.inlining, Ref(Some(d)))
    ensures Shown(c, Ref(Some(d)), ResolveF(c, r, d))
    decreases Todo(c, r), Open(c, r), Ref(Some(d)), 1
  {
    var p := PlanFor(c, r, d);
    PlanHeavy(c, r, d);
    if !p.Known? {
      PlanDescends(c, r, d);
      BodyLooks(c, r, d, p.start);
    }
    ResolveLooksFrom(c, r, d, p);
  }

  lemma {:induction false} BodyLooks(c: Context, r: Reg, d: string, start: Reg)
    requires Registry.Closed(c) && d in c.universe && DefinitionsKeyed(c) && Descends(c, r, start)
    requires HeavyConverted(c, start) && WithinDeeper(c, start.inlining, Body(c, d))
    ensures Shown(c, Body(c, d), Converted(c, d, start))
    decreases Todo(c, r), Open(c, r), Ref(Some(d)), 0
  {
    BodyRefsIn(c, d);
    ConvertLooks(c, start, Body(c, d));
  }

  lemma NotLight(c: Context, d: string)
    requires !LightDefinition(c, d)
    ensures !NullVariant(c, Ref(Some(d))) && !VagueVariant(c, Ref(Some(d)))
  {
    forall n: nat ensures !Nullish(c, n, Ref(Some(d))) && !Vaguish(c, n, Ref(Some(d))) { assert !Light(c, n, Ref(Some(d))); }
  }

  lemma KnownHeavy(c: Context, r: Reg, d: string)
    requires HeavyConverted(c, r) && PlanFor(c, r, d).Known? && !LightDefinition(c, d)
    ensures Shown(c, Ref(Some(d)), Result(PlanFor(c, r, d).out, PlanFor(c, r, d).reg))
  {
    NotLight(c, d);
    assert "description" in ANY_JSON.notes;
  }

  lemma KnownIsHeavy(c: Context, r: Reg, d: string)
    requires HeavyConverted(c, r) && PlanFor(c, r, d).Known?
    ensures !LightDefinition(c, d)
  {
    AnyJsonIsNamed(d);
    if !Anonymous(d) { NamedIsHeavy(c, d); }
  }

  lemma PlanHeavy(c: Context, r: Reg, d: string)
    requires HeavyConverted(c, r) && WithinDeeper(c, r.inlining, Ref(Some(d)))
    ensures var p := PlanFor(c, r, d);
      && (p.Known? ==> Shown(c, Ref(Some(d)), Result(p.out, p.reg)))
      && (!p.Known? ==> HeavyConverted(c, p.start) && WithinDeeper(c, p.start.inlining, Body(c, d)))
      && (p.Component? ==> !LightDefinition(c, d))
  {
    match PlanFor(c, r, d)
    case Known(_, _) =>
      KnownIsHeavy(c, r, d);
      KnownHeavy(c, r, d);
    case Component(_, start) =>
      if Anonymous(d) { MetAgain(c, r.inlining, d); } else { NamedIsHeavy(c, d); }
      HeavyWithin(c, r.inlining, d, Body(c, d));
    case Inline(start) => InlineWithin(c, r.inlining, d);
  }

  lemma ResolveLooksFrom(c: Context, r: Reg, d: string, p: Plan)
    requires Registry.Closed(c) && d in c.universe && p == PlanFor(c, r, d)
    requires p.Known? ==> Shown(c, Ref(Some(d)), Result(p.out, p.reg))
    requires !p.Known? ==> Shown(c, Body(c, d), Converted(c, d, p.start))
    requires p.Component? ==> !LightDefinition(c, d)
    ensures Shown(c, Ref(Some(d)), ResolveF(c, r, d))
  {
    match p
    case Known(_, _) =>
    case Component(_, _) => NotLight(c, d);
    case Inline(_) => InlineLooks(c, d);
  }

  lemma InlineLooks(c: Context, d: string)
    requires Anonymous(d)
    ensures NullVariant(c, Ref(Some(d))) <==> NullVariant(c, Body(c, d))
    ensures VagueVariant(c, Ref(Some(d))) <==> VagueVariant(c, Body(c, d))
  {
    var s := Ref(Some(d));
    forall n: nat ensures Nullish(c, n, Body(c, d)) ==> Nullish(c, n + 1, s) {}
    forall n: nat ensures Vaguish(c, n, Body(c, d)) ==> Vaguish(c, n + 1, s) {}
    forall n: nat | Nullish(c, n, s) ensures Nullish(c, n - 1, Body(c, d)) {}
    forall n: nat | Vaguish(c, n, s) ensures Vaguish(c, n - 1, Body(c, d)) {}
  }

  lemma NothingInlined(c: Context, s: Schema)
    ensures WithinDeeper(c, {}, s)
  {
  }
}
