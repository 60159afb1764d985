/** `stripDescriptions`: what two bodies are compared by before they share a component. */
module Fingerprint {
  import opened Sequences
  import opened JsonSchema

  const DESCRIPTION := "description"

  function StripJson(v: Json): Json
    decreases v
  {
    match v
    case JArr(items) => JArr(seq(|items|, i requires 0 <= i < |items| => StripJson(items[i])))
    case JObj(members) => JObj(map k | k in members && k != DESCRIPTION :: StripJson(members[k]))
    case _ => v
  }

  /** The walk drops every key called `description`, a property of that name included. */
  function Strip(s: Schema): Schema
    decreases s
  {
    match s
    case Obj(es) => Obj(StripEntries(es))
    case _ => s
  }

  function StripEntries(es: seq<Entry>): seq<Entry>
    decreases es
  {
    if es == [] then []
    else
      var n := |es| - 1;
      StripEntries(es[..n]) + StripEntry(es[n])
  }

  /** The entry without descriptions, or nothing when it is one. */
  function StripEntry(e: Entry): seq<Entry>
    decreases e
  {
    match e
    case Leaf(Note(k, j)) => if k == DESCRIPTION then [] else [Leaf(Note(k, StripJson(j)))]
    case Leaf(l) => [Leaf(StripLeaf(l))]
    case Group(kw, kids) => [Group(kw, StripKids(kw.Properties?, kids))]
  }

  function StripLeaf(l: LeafKw): LeafKw
  {
    match l
    case Enum(vs) => Enum(seq(|vs|, i requires 0 <= i < |vs| => StripJson(vs[i])))
    case Const(c) => Const(StripJson(c))
    case Default(j) => Default(StripJson(j))
    case Other(k, j) => Other(k, StripJson(j))
    case Dropped(k, j) => Dropped(k, StripJson(j))
    case _ => l
  }

  function StripKids(properties: bool, kids: seq<Kid>): seq<Kid>
    decreases kids
  {
    if kids == [] then []
    else
      var n := |kids| - 1;
      if properties && kids[n].name == DESCRIPTION then StripKids(properties, kids[..n])
      else StripKids(properties, kids[..n]) + [Kid(kids[n].name, Strip(kids[n].schema))]
  }

  // ----- what the fingerprint may forget -----

  /** No object inside the value has a member called `description`. */
  predicate JsonSafe(v: Json)
    decreases v
  {
    match v
    case JArr(items) => forall i | 0 <= i < |items| :: JsonSafe(items[i])
    case JObj(members) => DESCRIPTION !in members && forall k | k in members :: JsonSafe(members[k])
    case _ => true
  }

  /** `description` occurs as an annotation only: never as a property name or inside an asserted value. */
  predicate SafeSchema(s: Schema)
    decreases s
  {
    s.Obj? ==> SafeEntries(s.entries)
  }

  predicate SafeEntries(es: seq<Entry>)
    decreases es
  {
    forall i | 0 <= i < |es| ::
      match es[i]
      case Leaf(Enum(vs)) => forall j | 0 <= j < |vs| :: JsonSafe(vs[j])
      case Leaf(Const(v)) => JsonSafe(v)
      case Leaf(Other(_, v)) => JsonSafe(v)
      case Leaf(_) => true
      case Group(kw, kids) => SafeKids(kw.Properties?, kids)
  }

  predicate SafeKids(properties: bool, kids: seq<Kid>)
    decreases kids
  {
    forall i | 0 <= i < |kids| :: SafeSchema(kids[i].schema) && !(properties && kids[i].name == DESCRIPTION)
  }

  lemma {:induction false} StripJsonSafe(v: Json)
    requires JsonSafe(v)
    ensures StripJson(v) == v
    decreases v
  {
    match v
    case JArr(items) =>
      forall i | 0 <= i < |items| ensures StripJson(items[i]) == items[i] { StripJsonSafe(items[i]); }
    case JObj(members) =>
      forall k | k in members ensures StripJson(members[k]) == members[k] { StripJsonSafe(members[k]); }
      assert StripJson(v).members == members;
    case _ =>
  }

  lemma StripLeafSafe(l: LeafKw)
    requires SafeEntries([Leaf(l)])
    ensures Annotates(l) || StripLeaf(l) == l
  {
    assert [Leaf(l)][0] == Leaf(l);
    match l
    case Enum(vs) =>
      forall j | 0 <= j < |vs| ensures StripJson(vs[j]) == vs[j] { StripJsonSafe(vs[j]); }
      assert StripLeaf(l).values == vs;
    case Const(v) => StripJsonSafe(v);
    case Other(_, v) => StripJsonSafe(v);
    case _ =>
  }

  // ----- what a schema asserts -----

  /** The schema without its annotations, at every depth; properties keep any name. */
  function Assertions(s: Schema): Schema
    decreases s
  {
    match s
    case Obj(es) => Obj(EntryAssertions(es))
    case _ => s
  }

  function EntryAssertions(es: seq<Entry>): seq<Entry>
    decreases es
  {
    if es == [] then []
    else
      var n := |es| - 1;
      EntryAssertions(es[..n]) + Asserted(es[n])
  }

  /** The entry, or nothing when it is an annotation. */
  function Asserted(e: Entry): seq<Entry>
    decreases e
  {
    match e
    case Leaf(l) => if Annotates(l) then [] else [e]
    case Group(kw, kids) => [Group(kw, KidAssertions(kids))]
  }

  function KidAssertions(kids: seq<Kid>): (r: seq<Kid>)
    decreases kids
  {
    seq(|kids|, i requires 0 <= i < |kids| => Kid(kids[i].name, Assertions(kids[i].schema)))
  }

  /** Annotations mean nothing. */
  lemma {:induction false} AssertionsMeaning(s: Schema, v: Json, m: Meaning)
    ensures Valid(Assertions(s), v, m) <==> Valid(s, v, m)
    decreases s, 1
  {
    if s.Obj? {
      EntryAssertionsMeaning(s.entries, PropNames(s.entries), v, m);
      AssertedNames(s.entries);
      assert AllEntriesOk(s.entries, PropNames(s.entries), v, m) <==> Valid(s, v, m);
      assert AllEntriesOk(EntryAssertions(s.entries), PropNames(s.entries), v, m) <==> Valid(Assertions(s), v, m);
    }
  }

  predicate AllEntriesOk(es: seq<Entry>, names: set<string>, v: Json, m: Meaning)
  {
    forall i | 0 <= i < |es| :: EntryOk(es[i], names, v, m)
  }

  lemma AllEntriesOkConcat(a: seq<Entry>, b: seq<Entry>, names: set<string>, v: Json, m: Meaning)
    ensures AllEntriesOk(a + b, names, v, m) <==> AllEntriesOk(a, names, v, m) && AllEntriesOk(b, names, v, m)
  {
    if AllEntriesOk(a + b, names, v, m) {
      forall i | 0 <= i < |a| ensures EntryOk(a[i], names, v, m) { assert (a + b)[i] == a[i]; }
      forall i | 0 <= i < |b| ensures EntryOk(b[i], names, v, m) { assert (a + b)[|a| + i] == b[i]; }
    }
  }

  lemma {:induction false} EntryAssertionsMeaning(es: seq<Entry>, names: set<string>, v: Json, m: Meaning)
    ensures AllEntriesOk(EntryAssertions(es), names, v, m) <==> AllEntriesOk(es, names, v, m)
    decreases es, 0
  {
    if es != [] {
      var n := |es| - 1;
      EntryAssertionsMeaning(es[..n], names, v, m);
      AssertedMeaning(es[n], names, v, m);
      AllEntriesOkConcat(EntryAssertions(es[..n]), Asserted(es[n]), names, v, m);
      AllEntriesOkConcat(es[..n], [es[n]], names, v, m);
      LastSplit(es);
    }
  }

  lemma {:induction false} AssertedMeaning(e: Entry, names: set<string>, v: Json, m: Meaning)
    ensures AllEntriesOk(Asserted(e), names, v, m) <==> AllEntriesOk([e], names, v, m)
    decreases e, 0
  {
    OneEntry(e, names, v, m);
    match e
    case Leaf(_) =>
    case Group(kw, kids) =>
      KidAssertionsMeaning(kids, m);
      ExchangeBothWays(kw, kids, KidAssertions(kids), names, v, m);
      OneEntry(Group(kw, KidAssertions(kids)), names, v, m);
  }

  lemma OneEntry(e: Entry, names: set<string>, v: Json, m: Meaning)
    ensures AllEntriesOk([e], names, v, m) <==> EntryOk(e, names, v, m)
  {
    assert [e][0] == e;
  }

  lemma ExchangeBothWays(kw: GroupKw, a: seq<Kid>, b: seq<Kid>, names: set<string>, v: Json, m: Meaning)
    requires Alike(b, a, m)
    ensures EntryOk(Group(kw, a), names, v, m) <==> EntryOk(Group(kw, b), names, v, m)
  {
    AlikeBack(b, a, m);
    if EntryOk(Group(kw, a), names, v, m) { ExchangeKids(kw, a, b, names, v, m); }
    if EntryOk(Group(kw, b), names, v, m) { ExchangeKids(kw, b, a, names, v, m); }
  }

  lemma {:induction false} KidAssertionsMeaning(kids: seq<Kid>, m: Meaning)
    ensures Alike(KidAssertions(kids), kids, m)
    decreases kids, 0
  {
    forall i | 0 <= i < |kids| ensures KidAlike(KidAssertions(kids)[i], kids[i], m) {
      forall w ensures Valid(Assertions(kids[i].schema), w, m) <==> Valid(kids[i].schema, w, m) {
        AssertionsMeaning(kids[i].schema, w, m);
      }
    }
  }

  ghost predicate KidAlike(a: Kid, b: Kid, m: Meaning)
  {
    a.name == b.name && forall w :: Valid(a.schema, w, m) <==> Valid(b.schema, w, m)
  }

  ghost predicate Alike(a: seq<Kid>, b: seq<Kid>, m: Meaning)
  {
    |a| == |b| && forall i | 0 <= i < |a| :: KidAlike(a[i], b[i], m)
  }

  /** Subschemas with the same names and meanings can be exchanged. */
  lemma ExchangeKids(kw: GroupKw, a: seq<Kid>, b: seq<Kid>, names: set<string>, v: Json, m: Meaning)
    requires Alike(a, b, m) && EntryOk(Group(kw, a), names, v, m)
    ensures EntryOk(Group(kw, b), names, v, m)
  {
    match kw
    case AnyOf =>
      var i :| 0 <= i < |a| && Valid(a[i].schema, v, m);
      assert KidAlike(a[i], b[i], m);
      assert Valid(b[i].schema, v, m);
    case OneOf => ExchangeOneOf(a, b, names, v, m);
    case Properties =>
      forall i | v.JObj? && 0 <= i < |b| && b[i].name in v.members ensures Valid(b[i].schema, v.members[b[i].name], m) {
        assert KidAlike(a[i], b[i], m);
      }
    case AllOf =>
      forall i | 0 <= i < |b| ensures Valid(b[i].schema, v, m) {
        assert KidAlike(a[i], b[i], m);
      }
    case Tuple =>
      forall i | v.JArr? && 0 <= i < |b| && i < |v.items| ensures Valid(b[i].schema, v.items[i], m) {
        assert KidAlike(a[i], b[i], m);
      }
    case _ =>
      if a != [] { assert KidAlike(a[0], b[0], m); }
  }

  lemma ExchangeOneOf(a: seq<Kid>, b: seq<Kid>, names: set<string>, v: Json, m: Meaning)
    requires Alike(a, b, m) && EntryOk(Group(OneOf, a), names, v, m)
    ensures EntryOk(Group(OneOf, b), names, v, m)
  {
    var i :| 0 <= i < |a| && Valid(a[i].schema, v, m) && forall j | 0 <= j < |a| && j != i :: !Valid(a[j].schema, v, m);
    assert KidAlike(a[i], b[i], m);
    assert Valid(b[i].schema, v, m);
    forall j | 0 <= j < |b| && j != i ensures !Valid(b[j].schema, v, m) {
      assert KidAlike(a[j], b[j], m);
    }
  }

  lemma AlikeBack(a: seq<Kid>, b: seq<Kid>, m: Meaning)
    requires Alike(a, b, m)
    ensures Alike(b, a, m)
  {
    forall i | 0 <= i < |a| ensures KidAlike(b[i], a[i], m) {
      assert KidAlike(a[i], b[i], m);
    }
  }

  lemma {:induction false} AssertedNames(es: seq<Entry>)
    ensures PropNames(EntryAssertions(es)) == PropNames(es)
  {
    if es != [] {
      var n := |es| - 1;
      AssertedNames(es[..n]);
      var rest, last := EntryAssertions(es[..n]), Asserted(es[n]);
      if last == [] {
        assert rest + last == rest;
      } else {
        PropNamesAdd(rest, last[0]);
        assert rest + last == rest + [last[0]];
      }
      if es[n].Group? { KidAssertionNames(es[n].kids); }
    }
  }

  lemma PropNamesAdd(es: seq<Entry>, e: Entry)
    ensures PropNames(es + [e]) ==
            PropNames(es) + (if e.Group? && e.kw.Properties? then KidNames(e.kids) else {})
  {
    assert (es + [e])[..|es|] == es;
  }

  lemma KidAssertionNames(kids: seq<Kid>)
    ensures KidNames(KidAssertions(kids)) == KidNames(kids)
  {
    var r := KidAssertions(kids);
    forall k | k in kids ensures k.name in KidNames(r) {
      var i :| 0 <= i < |kids| && kids[i] == k;
      assert r[i] in r && r[i].name == k.name;
    }
  }

  // ----- one fingerprint, one meaning -----

  lemma AssertionsAdd(es: seq<Entry>, last: seq<Entry>)
    requires |last| <= 1
    ensures EntryAssertions(es + last) == EntryAssertions(es) + (if last == [] then [] else Asserted(last[0]))
  {
    if last == [] {
      assert es + last == es;
    } else {
      assert (es + last)[..|es|] == es;
    }
  }

  /** On safe schemas stripping keeps every assertion. */
  lemma {:induction false} StripAssertions(s: Schema)
    requires SafeSchema(s)
    ensures Assertions(Strip(s)) == Assertions(s)
    decreases s, 1
  {
    if s.Obj? { StripEntryAssertions(s.entries); }
  }

  lemma {:induction false} StripEntryAssertions(es: seq<Entry>)
    requires SafeEntries(es)
    ensures EntryAssertions(StripEntries(es)) == EntryAssertions(es)
    decreases es, 0
  {
    if es != [] {
      var n := |es| - 1;
      StripEntryAssertions(es[..n]);
      AssertionsAdd(StripEntries(es[..n]), StripEntry(es[n]));
      assert SafeEntries([es[n]]) by { assert [es[n]][0] == es[n]; }
      StrippedAsserts(es[n]);
    }
  }

  lemma {:induction false} StrippedAsserts(e: Entry)
    requires SafeEntries([e])
    ensures |StripEntry(e)| <= 1
    ensures Asserted(e) == if StripEntry(e) == [] then [] else Asserted(StripEntry(e)[0])
    decreases e, 0
  {
    assert [e][0] == e;
    match e
    case Leaf(l) => StripLeafSafe(l);
    case Group(kw, kids) => StripKidAssertions(kw.Properties?, kids);
  }

  lemma {:induction false} StripKidAssertions(properties: bool, kids: seq<Kid>)
    requires SafeKids(properties, kids)
    ensures KidAssertions(StripKids(properties, kids)) == KidAssertions(kids)
    decreases kids, 0
  {
    if kids != [] {
      var n := |kids| - 1;
      StripKidAssertions(properties, kids[..n]);
      StripAssertions(kids[n].schema);
      KidAssertionsNext(StripKids(properties, kids[..n]), Kid(kids[n].name, Strip(kids[n].schema)));
      KidAssertionsNext(kids[..n], kids[n]);
      LastSplit(kids);
    }
  }

  lemma KidAssertionsNext(kids: seq<Kid>, k: Kid)
    ensures KidAssertions(kids + [k]) == KidAssertions(kids) + [Kid(k.name, Assertions(k.schema))]
  {
  }

  /** On safe schemas stripping keeps the meaning. */
  lemma StripMeaning(s: Schema, v: Json, m: Meaning)
    requires SafeSchema(s)
    ensures Valid(Strip(s), v, m) <==> Valid(s, v, m)
  {
    StripAssertions(s);
    AssertionsMeaning(s, v, m);
    AssertionsMeaning(Strip(s), v, m);
  }

  /** What one fingerprint must not hide: the bodies assert the same, whatever their properties are called. */
  predicate SameAssertions(a: Schema, b: Schema)
  {
    Assertions(a) == Assertions(b)
  }

  /** Bodies that differ in annotations only mean the same. Safe bodies with one fingerprint are such. */
  lemma SameFingerprintSameMeaning(a: Schema, b: Schema, v: Json, m: Meaning)
    ensures SafeSchema(a) && SafeSchema(b) && Strip(a) == Strip(b) ==> SameAssertions(a, b)
    ensures SameAssertions(a, b) ==> (Valid(a, v, m) <==> Valid(b, v, m))
  {
    if SafeSchema(a) && SafeSchema(b) {
      StripAssertions(a);
      StripAssertions(b);
    }
    AssertionsMeaning(a, v, m);
    AssertionsMeaning(b, v, m);
  }

  // ----- a property called description -----

  /** The properties, and one more called `description`. */
  function DescriptionProperty(others: seq<Kid>, inner: Schema): Schema
  {
    Obj([Leaf(Type(One(TObject))), Group(Properties, others + [Kid(DESCRIPTION, inner)])])
  }

  lemma StripTwo(a: Entry, b: Entry)
    ensures StripEntries([a, b]) == StripEntry(a) + StripEntry(b)
  {
    assert [a, b][..1] == [a] && [a][..0] == [];
    assert StripEntries([]) == [];
    assert [] + StripEntry(a) == StripEntry(a);
  }

  lemma StripDescriptionProperty(others: seq<Kid>, inner: Schema)
    ensures Strip(DescriptionProperty(others, inner))
            == Obj([Leaf(Type(One(TObject))), Group(Properties, StripKids(true, others))])
  {
    var kids := others + [Kid(DESCRIPTION, inner)];
    assert kids[..|others|] == others;
    StripTwo(Leaf(Type(One(TObject))), Group(Properties, kids));
  }

  lemma TwoEntriesValid(a: Entry, b: Entry, v: Json, m: Meaning)
    ensures Valid(Obj([a, b]), v, m)
            <==> EntryOk(a, PropNames([a, b]), v, m) && EntryOk(b, PropNames([a, b]), v, m)
  {
    assert [a, b][0] == a && [a, b][1] == b;
  }

  /** The value is an object whose other properties are in order. */
  predicate OthersValid(others: seq<Kid>, v: Json, m: Meaning)
  {
    v.JObj? && forall i | 0 <= i < |others| && others[i].name in v.members :: Valid(others[i].schema, v.members[others[i].name], m)
  }

  lemma DescriptionPropertyMeans(others: seq<Kid>, inner: Schema, v: Json, m: Meaning)
    ensures Valid(DescriptionProperty(others, inner), v, m)
            <==> OthersValid(others, v, m) && (DESCRIPTION in v.members ==> Valid(inner, v.members[DESCRIPTION], m))
  {
    var kids := others + [Kid(DESCRIPTION, inner)];
    TwoEntriesValid(Leaf(Type(One(TObject))), Group(Properties, kids), v, m);
    if Valid(DescriptionProperty(others, inner), v, m) {
      forall i | 0 <= i < |others| && others[i].name in v.members ensures Valid(others[i].schema, v.members[others[i].name], m) {
        assert kids[i] == others[i];
      }
      assert kids[|others|].name == DESCRIPTION;
    }
  }

  ghost predicate SameMeaning(a: Schema, b: Schema, m: Meaning)
  {
    forall v :: Valid(a, v, m) <==> Valid(b, v, m)
  }

  /** The object with the one member `description` tells the objects apart where its value tells the schemas apart. */
  lemma OnlyDescription(others: seq<Kid>, a: Schema, b: Schema, v: Json, m: Meaning)
    requires SameMeaning(DescriptionProperty(others, a), DescriptionProperty(others, b), m)
    requires forall i | 0 <= i < |others| :: others[i].name != DESCRIPTION
    ensures Valid(a, v, m) <==> Valid(b, v, m)
  {
    var w := JObj(map[DESCRIPTION := v]);
    DescriptionPropertyMeans(others, a, w, m);
    DescriptionPropertyMeans(others, b, w, m);
  }

  /**
    The fingerprint forgets a property called `description` with its schema: any two such objects share a
    fingerprint, and they mean the same exactly when the forgotten schemas do.
  */
  lemma DescriptionPropertyForgotten(others: seq<Kid>, a: Schema, b: Schema, m: Meaning)
    requires forall i | 0 <= i < |others| :: others[i].name != DESCRIPTION
    ensures Strip(DescriptionProperty(others, a)) == Strip(DescriptionProperty(others, b))
    ensures SameMeaning(DescriptionProperty(others, a), DescriptionProperty(others, b), m) <==> SameMeaning(a, b, m)
  {
    StripDescriptionProperty(others, a);
    StripDescriptionProperty(others, b);
    forall v ensures SameMeaning(a, b, m) ==>
        (Valid(DescriptionProperty(others, a), v, m) <==> Valid(DescriptionProperty(others, b), v, m)) {
      DescriptionPropertyMeans(others, a, v, m);
      DescriptionPropertyMeans(others, b, v, m);
    }
    if SameMeaning(DescriptionProperty(others, a), DescriptionProperty(others, b), m) {
      forall v ensures Valid(a, v, m) <==> Valid(b, v, m) { OnlyDescription(others, a, b, v, m); }
    }
  }

  /** A string `description` and a number `description`: one fingerprint, two meanings. */
  lemma DescriptionTypesForgotten(others: seq<Kid>, m: Meaning)
    requires forall i | 0 <= i < |others| :: others[i].name != DESCRIPTION
    ensures var a, b := Obj([Leaf(Type(One(TString)))]), Obj([Leaf(Type(One(TNumber)))]);
      && Strip(DescriptionProperty(others, a)) == Strip(DescriptionProperty(others, b))
      && !SameMeaning(DescriptionProperty(others, a), DescriptionProperty(others, b), m)
  {
    var a, b := Obj([Leaf(Type(One(TString)))]), Obj([Leaf(Type(One(TNumber)))]);
    DescriptionPropertyForgotten(others, a, b, m);
    var v := JStr("");
    assert EntryOk(a.entries[0], PropNames(a.entries), v, m) && !EntryOk(b.entries[0], PropNames(b.entries), v, m);
    assert Valid(a, v, m) && !Valid(b, v, m);
  }
}
