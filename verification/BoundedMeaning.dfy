/**
  A solution of the definitions' equations: a value meets a definition if it passes every bounded unrolling
  of the references. It exists for every graph without source `oneOf`, cyclic or not.
*/
module BoundedMeaning {
  import opened JsonSchema
  import opened Registry

  /** Every definition means what its body says; for soundness one direction is enough. */
  ghost predicate Solves(side: Side, c: Context, m: Meaning)
  {
    forall d, v | d in c.universe ::
      && (side.sound && m.refs(d, v) ==> Valid(Body(c, d), v, m))
      && (side.exact && Valid(Body(c, d), v, m) ==> m.refs(d, v))
  }

  type Ext = (string, Json, Json) -> bool

  /** Validation with `n` levels of references; below that, and for unknown names, anything passes. */
  predicate Depth(c: Context, ext: Ext, n: nat, d: string, v: Json)
    decreases n
  {
    n == 0 || d !in c.universe || Valid(Body(c, d), v, Meaning((e, w) => Depth(c, ext, n - 1, e, w), ext))
  }

  function DepthMeaning(c: Context, ext: Ext, n: nat): Meaning
  {
    Meaning((e, w) => Depth(c, ext, n, e, w), ext)
  }

  /** Passing at every depth. */
  ghost function Limit(c: Context, ext: Ext): Meaning
  {
    Meaning((d, v) => forall n: nat :: Depth(c, ext, n, d, v), ext)
  }

  /** Without `oneOf`, references occur positively. */
  predicate Positive(s: Schema)
    decreases s
  {
    s.Obj? ==> forall i | 0 <= i < |s.entries| :: EntryPositive(s.entries[i])
  }

  predicate EntryPositive(e: Entry)
    decreases e
  {
    e.Group? ==> !e.kw.OneOf? && KidsPositive(e.kids)
  }

  predicate KidsPositive(kids: seq<Kid>)
    decreases kids
  {
    forall i | 0 <= i < |kids| :: Positive(kids[i].schema)
  }

  predicate DefinitionsPositive(c: Context)
  {
    forall d | d in c.universe :: Positive(Body(c, d))
  }

  lemma {:induction false} ValidMono(s: Schema, v: Json, m1: Meaning, m2: Meaning)
    requires Positive(s) && Below(m1, m2) && Valid(s, v, m1)
    ensures Valid(s, v, m2)
    decreases s, 1
  {
    if s.Obj? {
      forall i | 0 <= i < |s.entries| ensures EntryOk(s.entries[i], PropNames(s.entries), v, m2) {
        EntryMono(s.entries[i], PropNames(s.entries), v, m1, m2);
      }
    }
  }

  lemma {:induction false} EntryMono(e: Entry, names: set<string>, v: Json, m1: Meaning, m2: Meaning)
    requires EntryPositive(e)
    requires Below(m1, m2) && EntryOk(e, names, v, m1)
    ensures EntryOk(e, names, v, m2)
    decreases e, 0
  {
    if e.Group? {
      forall i, w | 0 <= i < |e.kids| && Valid(e.kids[i].schema, w, m1) ensures Valid(e.kids[i].schema, w, m2) {
        ValidMono(e.kids[i].schema, w, m1, m2);
      }
      if e.kw.AnyOf? {
        var i :| 0 <= i < |e.kids| && Valid(e.kids[i].schema, v, m1);
        assert Valid(e.kids[i].schema, v, m2);
      }
    }
  }

  lemma {:induction false} DepthDecreases(c: Context, ext: Ext, n: nat, d: string, v: Json)
    requires DefinitionsPositive(c)
    requires Depth(c, ext, n + 1, d, v)
    ensures Depth(c, ext, n, d, v)
    decreases n
  {
    if n > 0 && d in c.universe {
      var m1, m2 := DepthMeaning(c, ext, n), DepthMeaning(c, ext, n - 1);
      forall e, w | m1.refs(e, w) ensures m2.refs(e, w) {
        DepthDecreases(c, ext, n - 1, e, w);
      }
      ValidMono(Body(c, d), v, m1, m2);
    }
  }

  lemma {:induction false} DeeperIsBelow(c: Context, ext: Ext, n: nat, k: nat)
    requires DefinitionsPositive(c) && n <= k
    ensures Below(DepthMeaning(c, ext, k), DepthMeaning(c, ext, n))
    decreases k - n
  {
    if n < k {
      DeeperIsBelow(c, ext, n + 1, k);
      forall d, v | Depth(c, ext, n + 1, d, v) ensures Depth(c, ext, n, d, v) {
        DepthDecreases(c, ext, n, d, v);
      }
    }
  }

  lemma FailsDeeper(c: Context, ext: Ext, s: Schema, v: Json, n: nat, k: nat)
    requires DefinitionsPositive(c) && Positive(s) && n <= k && !Valid(s, v, DepthMeaning(c, ext, n))
    ensures !Valid(s, v, DepthMeaning(c, ext, k))
  {
    DeeperIsBelow(c, ext, n, k);
    if Valid(s, v, DepthMeaning(c, ext, k)) {
      ValidMono(s, v, DepthMeaning(c, ext, k), DepthMeaning(c, ext, n));
    }
  }

  /** What fails in the limit fails at some depth. */
  lemma {:induction false} FailsAtDepth(c: Context, ext: Ext, s: Schema, v: Json) returns (n: nat)
    requires DefinitionsPositive(c) && Positive(s) && !Valid(s, v, Limit(c, ext))
    ensures !Valid(s, v, DepthMeaning(c, ext, n))
    decreases s, 1
  {
    n := 0;
    match s
    case Ref(Some(d)) =>
      n :| !Depth(c, ext, n, d, v);
    case Obj(es) =>
      var i :| 0 <= i < |es| && !EntryOk(es[i], PropNames(es), v, Limit(c, ext));
      n := EntryFailsAtDepth(c, ext, es[i], PropNames(es), v);
    case _ =>
  }

  lemma {:induction false} EntryFailsAtDepth(c: Context, ext: Ext, e: Entry, names: set<string>, v: Json) returns (n: nat)
    requires DefinitionsPositive(c) && EntryPositive(e)
    requires !EntryOk(e, names, v, Limit(c, ext))
    ensures !EntryOk(e, names, v, DepthMeaning(c, ext, n))
    decreases e, 0
  {
    n := 0;
    match e
    case Leaf(_) =>
    case Group(Properties, kids) =>
      var i :| 0 <= i < |kids| && kids[i].name in v.members && !Valid(kids[i].schema, v.members[kids[i].name], Limit(c, ext));
      n := FailsAtDepth(c, ext, kids[i].schema, v.members[kids[i].name]);
    case Group(Items, kids) =>
      var j :| 0 <= j < |v.items| && !Valid(kids[0].schema, v.items[j], Limit(c, ext));
      n := FailsAtDepth(c, ext, kids[0].schema, v.items[j]);
    case Group(Tuple, kids) =>
      var i :| 0 <= i < |kids| && i < |v.items| && !Valid(kids[i].schema, v.items[i], Limit(c, ext));
      n := FailsAtDepth(c, ext, kids[i].schema, v.items[i]);
    case Group(Additional, kids) =>
      var k :| k in v.members && k !in names && !Valid(kids[0].schema, v.members[k], Limit(c, ext));
      n := FailsAtDepth(c, ext, kids[0].schema, v.members[k]);
    case Group(AllOf, kids) =>
      var i :| 0 <= i < |kids| && !Valid(kids[i].schema, v, Limit(c, ext));
      n := FailsAtDepth(c, ext, kids[i].schema, v);
    case Group(AnyOf, kids) =>
      n := AllFailAtDepth(c, ext, kids, v);
  }

  /** Finitely many alternatives all fail from some common depth on. */
  lemma {:induction false} AllFailAtDepth(c: Context, ext: Ext, kids: seq<Kid>, v: Json) returns (n: nat)
    requires DefinitionsPositive(c) && KidsPositive(kids)
    requires forall i | 0 <= i < |kids| :: !Valid(kids[i].schema, v, Limit(c, ext))
    ensures forall i | 0 <= i < |kids| :: !Valid(kids[i].schema, v, DepthMeaning(c, ext, n))
    decreases kids, 0
  {
    n := 0;
    if kids != [] {
      var last := |kids| - 1;
      var a := AllFailAtDepth(c, ext, kids[..last], v);
      var b := FailsAtDepth(c, ext, kids[last].schema, v);
      n := if a < b then b else a;
      forall i | 0 <= i < |kids| ensures !Valid(kids[i].schema, v, DepthMeaning(c, ext, n)) {
        if i < last { assert kids[..last][i] == kids[i]; }
        FailsDeeper(c, ext, kids[i].schema, v, if i < last then a else b, n);
      }
    }
  }

  /** Bounded validation at every depth is a meaning: each definition means exactly what its body says. */
  lemma LimitSolves(c: Context, ext: Ext)
    requires DefinitionsPositive(c)
    ensures Solves(BOTH, c, Limit(c, ext))
  {
    var m := Limit(c, ext);
    forall d, v | d in c.universe ensures m.refs(d, v) <==> Valid(Body(c, d), v, m) {
      if !Valid(Body(c, d), v, m) {
        var n := FailsAtDepth(c, ext, Body(c, d), v);
        assert !Depth(c, ext, n + 1, d, v);
      }
      if Valid(Body(c, d), v, m) {
        forall n: nat ensures Depth(c, ext, n, d, v) {
          if n > 0 {
            ValidMono(Body(c, d), v, m, DepthMeaning(c, ext, n - 1));
          }
        }
      }
    }
  }

  /** It is the greatest one: any other solution accepts less. */
  lemma {:induction false} LimitIsGreatest(c: Context, m: Meaning, n: nat, d: string, v: Json)
    requires DefinitionsPositive(c) && Solves(SOUND, c, m) && m.refs(d, v)
    ensures Depth(c, m.ext, n, d, v)
    decreases n
  {
    if n > 0 && d in c.universe {
      var deep := DepthMeaning(c, m.ext, n - 1);
      forall e, w | m.refs(e, w) ensures deep.refs(e, w) {
        LimitIsGreatest(c, m, n - 1, e, w);
      }
      ValidMono(Body(c, d), v, m, deep);
    }
  }
}
