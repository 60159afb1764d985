/** When two bodies have one fingerprint, without stripping either: they are equal but for descriptions. */
module FingerprintEquality {
  import opened Sequences
  import opened JsonSchema
  import opened Fingerprint

  /** Equal values, or values equal but for members called `description`. */
  predicate SameJson(members: bool, a: Json, b: Json)
    decreases a
  {
    match a
    case JArr(items) =>
      b.JArr? && |items| == |b.items| && forall i | 0 <= i < |items| :: SameJson(members, items[i], b.items[i])
    case JObj(of) =>
      && b.JObj?
      && (forall k | k in b.members && !(members && k == "description") :: k in of)
      && forall k | k in of && !(members && k == "description") :: k in b.members && SameJson(members, of[k], b.members[k])
    case _ => a == b
  }

  /** The annotation `description`. */
  predicate Describes(e: Entry)
  {
    e.Leaf? && e.leaf.Note? && e.leaf.key == "description"
  }

  /**
    The schemas are equal but for annotations `description`, at any depth; with `members`, also but for
    properties and members of values that are called so.
  */
  predicate Same(members: bool, a: Schema, b: Schema)
    decreases a
  {
    if a.Obj? then b.Obj? && SameEntries(members, a.entries, b.entries) else a == b
  }

  predicate SameEntries(members: bool, a: seq<Entry>, b: seq<Entry>)
    decreases a, |b|
  {
    if a != [] && Describes(a[|a| - 1]) then SameEntries(members, a[..|a| - 1], b)
    else if b != [] && Describes(b[|b| - 1]) then SameEntries(members, a, b[..|b| - 1])
    else if a == [] || b == [] then a == b
    else SameEntries(members, a[..|a| - 1], b[..|b| - 1]) && SameEntry(members, a[|a| - 1], b[|b| - 1])
  }

  predicate SameEntry(members: bool, a: Entry, b: Entry)
    decreases a
  {
    match a
    case Leaf(l) => b.Leaf? && SameLeaf(members, l, b.leaf)
    case Group(kw, kids) => b.Group? && b.kw == kw && SameKids(members && kw.Properties?, members, kids, b.kids)
  }

  predicate SameLeaf(members: bool, a: LeafKw, b: LeafKw)
  {
    match a
    case Enum(vs) => b.Enum? && |vs| == |b.values| && forall i | 0 <= i < |vs| :: SameJson(members, vs[i], b.values[i])
    case Const(v) => b.Const? && SameJson(members, v, b.value)
    case Default(v) => b.Default? && SameJson(members, v, b.json)
    case Note(k, v) => b.Note? && b.key == k && SameJson(members, v, b.json)
    case Other(k, v) => b.Other? && b.key == k && SameJson(members, v, b.json)
    case Dropped(k, v) => b.Dropped? && b.key == k && SameJson(members, v, b.json)
    case _ => a == b
  }

  predicate SameKids(skip: bool, members: bool, a: seq<Kid>, b: seq<Kid>)
    decreases a, |b|
  {
    if skip && a != [] && a[|a| - 1].name == "description" then SameKids(skip, members, a[..|a| - 1], b)
    else if skip && b != [] && b[|b| - 1].name == "description" then SameKids(skip, members, a, b[..|b| - 1])
    else if a == [] || b == [] then a == b
    else
      && SameKids(skip, members, a[..|a| - 1], b[..|b| - 1])
      && a[|a| - 1].name == b[|b| - 1].name && Same(members, a[|a| - 1].schema, b[|b| - 1].schema)
  }

  // ----- one fingerprint exactly then -----

  lemma {:induction false} JsonStripped(a: Json, b: Json)
    ensures StripJson(a) == StripJson(b) <==> SameJson(true, a, b)
    decreases a
  {
    match a
    case JArr(items) =>
      if b.JArr? { ArrayLength(items, b.items); }
      if b.JArr? && |items| == |b.items| {
        forall i | 0 <= i < |items| ensures StripJson(items[i]) == StripJson(b.items[i]) <==> SameJson(true, items[i], b.items[i]) {
          JsonStripped(items[i], b.items[i]);
        }
        ArraysStripped(items, b.items);
      }
    case JObj(of) =>
      if b.JObj? {
        forall k | k in of && k in b.members ensures StripJson(of[k]) == StripJson(b.members[k]) <==> SameJson(true, of[k], b.members[k]) {
          JsonStripped(of[k], b.members[k]);
        }
        ObjectsStripped(of, b.members);
      }
    case _ =>
  }

  lemma ArrayLength(a: seq<Json>, b: seq<Json>)
    ensures StripJson(JArr(a)) == StripJson(JArr(b)) || StripLeaf(Enum(a)) == StripLeaf(Enum(b)) ==> |a| == |b|
  {
    assert |StripJson(JArr(a)).items| == |a| && |StripLeaf(Enum(a)).values| == |a|;
    assert |StripJson(JArr(b)).items| == |b| && |StripLeaf(Enum(b)).values| == |b|;
  }

  lemma ArraysStripped(a: seq<Json>, b: seq<Json>)
    requires |a| == |b|
    ensures StripJson(JArr(a)) == StripJson(JArr(b)) <==> forall i | 0 <= i < |a| :: StripJson(a[i]) == StripJson(b[i])
  {
    var x, y := StripJson(JArr(a)).items, StripJson(JArr(b)).items;
    assert forall i | 0 <= i < |a| :: x[i] == StripJson(a[i]) && y[i] == StripJson(b[i]);
  }

  lemma ObjectsStripped(a: map<string, Json>, b: map<string, Json>)
    ensures StripJson(JObj(a)) == StripJson(JObj(b)) <==>
            && (forall k | k != DESCRIPTION :: k in a <==> k in b)
            && forall k | k in a && k in b && k != DESCRIPTION :: StripJson(a[k]) == StripJson(b[k])
  {
    var x, y := StripJson(JObj(a)).members, StripJson(JObj(b)).members;
    assert forall k :: k in x <==> k in a && k != DESCRIPTION;
    assert forall k :: k in y <==> k in b && k != DESCRIPTION;
    assert forall k | k in x :: x[k] == StripJson(a[k]);
    assert forall k | k in y :: y[k] == StripJson(b[k]);
  }

  lemma EnumStripped(a: seq<Json>, b: seq<Json>)
    requires |a| == |b|
    ensures StripLeaf(Enum(a)) == StripLeaf(Enum(b)) <==> SameLeaf(true, Enum(a), Enum(b))
  {
    forall i | 0 <= i < |a| ensures StripJson(a[i]) == StripJson(b[i]) <==> SameJson(true, a[i], b[i]) { JsonStripped(a[i], b[i]); }
    var x, y := StripLeaf(Enum(a)).values, StripLeaf(Enum(b)).values;
    assert forall i | 0 <= i < |a| :: x[i] == StripJson(a[i]) && y[i] == StripJson(b[i]);
  }

  /** A leaf that is no description is kept, with its value stripped. */
  lemma LeafStripped(a: LeafKw, b: LeafKw)
    requires !Describes(Leaf(a)) && !Describes(Leaf(b))
    ensures StripEntry(Leaf(a)) == StripEntry(Leaf(b)) <==> SameLeaf(true, a, b)
  {
    match a
    case Enum(vs) =>
      if b.Enum? { ArrayLength(vs, b.values); }
      if b.Enum? && |vs| == |b.values| { EnumStripped(vs, b.values); }
    case Const(v) => if b.Const? { JsonStripped(v, b.value); }
    case Default(v) => if b.Default? { JsonStripped(v, b.json); }
    case Note(_, v) => if b.Note? { JsonStripped(v, b.json); }
    case Other(_, v) => if b.Other? { JsonStripped(v, b.json); }
    case Dropped(_, v) => if b.Dropped? { JsonStripped(v, b.json); }
    case _ =>
  }

  lemma {:induction false} SchemaStripped(a: Schema, b: Schema)
    ensures Strip(a) == Strip(b) <==> Same(true, a, b)
    decreases a
  {
    if a.Obj? && b.Obj? { EntriesStripped(a.entries, b.entries); }
  }

  lemma EntryKept(e: Entry)
    requires !Describes(e)
    ensures |StripEntry(e)| == 1 && StripEntry(e)[0].Leaf? == e.Leaf?
  {
  }

  lemma {:induction false} EntryStripped(a: Entry, b: Entry)
    requires !Describes(a) && !Describes(b)
    ensures StripEntry(a) == StripEntry(b) <==> SameEntry(true, a, b)
    decreases a
  {
    match a
    case Leaf(l) => if b.Leaf? { LeafStripped(l, b.leaf); } else { EntryKept(a); }
    case Group(kw, kids) => if b.Group? && b.kw == kw { KidsStripped(kw.Properties?, kids, b.kids); }
  }

  lemma LastsAgree<T>(a: seq<T>, x: T, b: seq<T>, y: T)
    ensures a + [x] == b + [y] <==> a == b && x == y
  {
    if a + [x] == b + [y] {
      assert (a + [x])[|a|] == x && (a + [x])[..|a|] == a && (b + [y])[|b|] == y && (b + [y])[..|b|] == b;
    }
  }

  lemma {:induction false} EntriesStripped(a: seq<Entry>, b: seq<Entry>)
    ensures StripEntries(a) == StripEntries(b) <==> SameEntries(true, a, b)
    decreases a, |b|
  {
    if a != [] && Describes(a[|a| - 1]) {
      EntriesStripped(a[..|a| - 1], b);
    } else if b != [] && Describes(b[|b| - 1]) {
      EntriesStripped(a, b[..|b| - 1]);
    } else if a != [] && b != [] {
      var m, n := |a| - 1, |b| - 1;
      EntriesStripped(a[..m], b[..n]);
      EntryStripped(a[m], b[n]);
      EntryKept(a[m]);
      EntryKept(b[n]);
      assert StripEntry(a[m]) == [StripEntry(a[m])[0]] && StripEntry(b[n]) == [StripEntry(b[n])[0]];
      LastsAgree(StripEntries(a[..m]), StripEntry(a[m])[0], StripEntries(b[..n]), StripEntry(b[n])[0]);
    } else {
      if a != [] { EntryKept(a[|a| - 1]); }
      if b != [] { EntryKept(b[|b| - 1]); }
    }
  }

  lemma {:induction false} KidsStripped(skip: bool, a: seq<Kid>, b: seq<Kid>)
    ensures StripKids(skip, a) == StripKids(skip, b) <==> SameKids(skip, true, a, b)
    decreases a, |b|
  {
    if skip && a != [] && a[|a| - 1].name == DESCRIPTION {
      KidsStripped(skip, a[..|a| - 1], b);
    } else if skip && b != [] && b[|b| - 1].name == DESCRIPTION {
      KidsStripped(skip, a, b[..|b| - 1]);
    } else if a != [] && b != [] {
      var m, n := |a| - 1, |b| - 1;
      KidsStripped(skip, a[..m], b[..n]);
      SchemaStripped(a[m].schema, b[n].schema);
      LastsAgree(StripKids(skip, a[..m]), Kid(a[m].name, Strip(a[m].schema)), StripKids(skip, b[..n]), Kid(b[n].name, Strip(b[n].schema)));
    }
  }

  // ----- annotations alone -----

  lemma {:induction false} JsonMembersToo(a: Json, b: Json)
    requires SameJson(false, a, b)
    ensures SameJson(true, a, b)
    decreases a
  {
    match a
    case JArr(items) =>
      forall i | 0 <= i < |items| ensures SameJson(true, items[i], b.items[i]) { JsonMembersToo(items[i], b.items[i]); }
    case JObj(of) =>
      forall k | k in of ensures k in b.members && SameJson(true, of[k], b.members[k]) { JsonMembersToo(of[k], b.members[k]); }
    case _ =>
  }

  lemma LeafMembersToo(a: LeafKw, b: LeafKw)
    requires SameLeaf(false, a, b)
    ensures SameLeaf(true, a, b)
  {
    match a
    case Enum(vs) => forall i | 0 <= i < |vs| ensures SameJson(true, vs[i], b.values[i]) { JsonMembersToo(vs[i], b.values[i]); }
    case Const(v) => JsonMembersToo(v, b.value);
    case Default(v) => JsonMembersToo(v, b.json);
    case Note(_, v) => JsonMembersToo(v, b.json);
    case Other(_, v) => JsonMembersToo(v, b.json);
    case Dropped(_, v) => JsonMembersToo(v, b.json);
    case _ =>
  }

  /** Bodies that differ in annotations `description` alone are among those with one fingerprint. */
  lemma {:induction false} AnnotationsOnly(a: Schema, b: Schema)
    requires Same(false, a, b)
    ensures Same(true, a, b)
    decreases a
  {
    if a.Obj? { EntriesMembersToo(a.entries, b.entries); }
  }

  lemma {:induction false} EntriesMembersToo(a: seq<Entry>, b: seq<Entry>)
    requires SameEntries(false, a, b)
    ensures SameEntries(true, a, b)
    decreases a, |b|
  {
    if a != [] && Describes(a[|a| - 1]) {
      EntriesMembersToo(a[..|a| - 1], b);
    } else if b != [] && Describes(b[|b| - 1]) {
      EntriesMembersToo(a, b[..|b| - 1]);
    } else if a != [] && b != [] {
      EntriesMembersToo(a[..|a| - 1], b[..|b| - 1]);
      EntryMembersToo(a[|a| - 1], b[|b| - 1]);
    }
  }

  lemma {:induction false} EntryMembersToo(a: Entry, b: Entry)
    requires SameEntry(false, a, b)
    ensures SameEntry(true, a, b)
    decreases a
  {
    match a
    case Leaf(l) => LeafMembersToo(l, b.leaf);
    case Group(kw, kids) => KidsMembersToo(kw.Properties?, kids, b.kids);
  }

  lemma {:induction false} KidsMembersToo(skip: bool, a: seq<Kid>, b: seq<Kid>)
    requires SameKids(false, false, a, b)
    ensures SameKids(skip, true, a, b)
    decreases a, |b|
  {
    if a != [] && b != [] {
      var m, n := |a| - 1, |b| - 1;
      AnnotationsOnly(a[m].schema, b[n].schema);
      KidsMembersToo(skip, a[..m], b[..n]);
      KidsStripped(skip, a[..m], b[..n]);
      SchemaStripped(a[m].schema, b[n].schema);
      KidsStripped(skip, a, b);
    }
  }
}
