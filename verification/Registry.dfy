/**
  The component registry as a function of its state: what `convert` and `resolve` return, and the
  state they leave. References are resolved in the order the translator meets them.
*/
module Registry {
  import opened Options
  import opened JsonSchema
  import opened OpenApi
  import opened SchemaRewrite
  import opened ComponentNames
  import opened Fingerprint

  /** What stays fixed: the definitions, the names Swagger owns, and a finite set of all names used. */
  datatype Context = Context(definitions: map<string, Schema>, swaggerOwned: set<string>, universe: set<string>)

  datatype Reg = Reg(
    converted: map<string, Out>,
    inlining: set<string>,
    byFingerprint: map<(string, Schema), Out>,
    anon: nat,
    schemas: map<string, Out>)

  datatype Result<T> = Result(out: T, reg: Reg)

  function Body(c: Context, def: string): Schema
  {
    if def in c.definitions then c.definitions[def] else Absent
  }

  /** Every reference in `s` is in `names`. */
  predicate RefsIn(s: Schema, names: set<string>)
    decreases s
  {
    match s
    case Ref(Some(d)) => d in names
    case Obj(es) => EntriesRefsIn(es, names)
    case _ => true
  }

  predicate EntriesRefsIn(es: seq<Entry>, names: set<string>)
    decreases es
  {
    forall i | 0 <= i < |es| && es[i].Group? :: KidsRefsIn(es[i].kids, names)
  }

  predicate KidsRefsIn(kids: seq<Kid>, names: set<string>)
    decreases kids
  {
    forall i | 0 <= i < |kids| :: RefsIn(kids[i].schema, names)
  }

  predicate Closed(c: Context)
  {
    forall d | d in c.definitions :: RefsIn(c.definitions[d], c.universe)
  }

  const ANY_JSON: Out := EMPTY.(notes := map["description" := JStr("Dowolny JSON")])

  // ----- termination -----

  /** Names not yet converted, and names not being inlined: the first two parts of the measure. */
  function Todo(c: Context, r: Reg): nat { |c.universe - r.converted.Keys| }

  function Open(c: Context, r: Reg): nat { |c.universe - r.inlining| }

  lemma TodoFewer(c: Context, r: Reg, def: string, r': Reg)
    requires def in c.universe && def !in r.converted && r'.converted.Keys == r.converted.Keys + {def}
    ensures Todo(c, r') < Todo(c, r)
  {
    assert c.universe - r'.converted.Keys == (c.universe - r.converted.Keys) - {def};
  }

  lemma OpenFewer(c: Context, r: Reg, def: string, r': Reg)
    requires def in c.universe && def !in r.inlining && r'.inlining == r.inlining + {def}
    requires r'.converted == r.converted
    ensures Open(c, r') < Open(c, r) && Todo(c, r') == Todo(c, r)
  {
    assert c.universe - r'.inlining == (c.universe - r.inlining) - {def};
  }

  lemma TodoShrinks(c: Context, r: Reg, r': Reg)
    requires r.converted.Keys <= r'.converted.Keys && r'.inlining == r.inlining
    ensures Todo(c, r') <= Todo(c, r) && Open(c, r') == Open(c, r)
  {
    var a, b := c.universe - r'.converted.Keys, c.universe - r.converted.Keys;
    assert b == a + (b - a);
  }

  function ConvertF(c: Context, r: Reg, s: Schema): (res: Result<Out>)
    requires Closed(c) && RefsIn(s, c.universe)
    ensures res.reg.inlining == r.inlining && r.converted.Keys <= res.reg.converted.Keys
    decreases Todo(c, r), Open(c, r), s, 1
  {
    match s
    case Absent => Result(EMPTY, r)
    case Always(_) => Result(EMPTY, r)
    case Ref(None) => Result(EMPTY, r)
    case Ref(Some(d)) => ResolveF(c, r, d)
    case Obj(es) =>
      var res := EntriesF(c, r, es);
      Result(Finish(Draft(es, res.out)), res.reg)
  }

  function EntriesF(c: Context, r: Reg, es: seq<Entry>): (res: Result<seq<seq<Out>>>)
    requires Closed(c) && EntriesRefsIn(es, c.universe)
    ensures res.reg.inlining == r.inlining && r.converted.Keys <= res.reg.converted.Keys
    ensures Fits(es, res.out)
    decreases Todo(c, r), Open(c, r), es, 0
  {
    if es == [] then Result([], r)
    else
      var n := |es| - 1;
      var before := EntriesF(c, r, es[..n]);
      TodoShrinks(c, r, before.reg);
      match es[n]
      case Leaf(_) => Result(before.out + [[]], before.reg)
      case Group(_, kids) =>
        var here := KidsF(c, before.reg, kids);
        Result(before.out + [here.out], here.reg)
  }

  function KidsF(c: Context, r: Reg, kids: seq<Kid>): (res: Result<seq<Out>>)
    requires Closed(c) && KidsRefsIn(kids, c.universe)
    ensures res.reg.inlining == r.inlining && r.converted.Keys <= res.reg.converted.Keys
    ensures |res.out| == |kids|
    decreases Todo(c, r), Open(c, r), kids, 0
  {
    if kids == [] then Result([], r)
    else
      var n := |kids| - 1;
      var before := KidsF(c, r, kids[..n]);
      TodoShrinks(c, r, before.reg);
      var here := ConvertF(c, before.reg, kids[n].schema);
      Result(before.out + [here.out], here.reg)
  }

  /**
    What `resolve` decides before it converts anything: the answer is known, the body becomes the
    component `name`, or the body is inlined. The last two carry the state the body is converted in.
  */
  datatype Plan = Known(out: Out, reg: Reg) | Component(name: string, start: Reg) | Inline(start: Reg)

  function PlanFor(c: Context, r: Reg, def: string): (p: Plan)
    ensures p.Known? ==> p.reg.inlining == r.inlining && r.converted.Keys <= p.reg.converted.Keys
    ensures p.Component? ==> def !in r.converted && p.start.inlining == r.inlining
                             && p.start.converted == r.converted[def := ORef(p.name)]
    ensures p.Inline? ==> def !in r.inlining && p.start == r.(inlining := r.inlining + {def})
  {
    if def in r.converted then Known(r.converted[def], r)
    else if IsAnyJson(def) then Known(ANY_JSON, r)
    else
      var nice := ComponentNameFor(def);
      if nice.Some? && nice.value in c.swaggerOwned then
        Known(ORef(nice.value), r.(converted := r.converted[def := ORef(nice.value)]))
      else if nice.Some? then
        var mark := (nice.value, Strip(Body(c, def)));
        if mark in r.byFingerprint then
          Known(r.byFingerprint[mark], r.(converted := r.converted[def := r.byFingerprint[mark]]))
        else
          var name := FreeName(r.schemas.Keys, nice.value);
          Component(name, Reserve(r, def, mark, name))
      else if def in r.inlining then
        var name := FreeName(r.schemas.Keys, AnonymousName(r.anon + 1));
        Component(name, r.(anon := r.anon + 1, converted := r.converted[def := ORef(name)]))
      else
        Inline(r.(inlining := r.inlining + {def}))
  }

  /** A named definition is entered everywhere before its body is converted. */
  function Reserve(r: Reg, def: string, mark: (string, Schema), name: string): Reg
  {
    r.(byFingerprint := r.byFingerprint[mark := ORef(name)],
       converted := r.converted[def := ORef(name)],
       schemas := r.schemas[name := EMPTY])
  }

  function Store(r: Reg, name: string, o: Out): Reg
  {
    r.(schemas := r.schemas[name := o])
  }

  function ResolveF(c: Context, r: Reg, def: string): (res: Result<Out>)
    requires Closed(c) && def in c.universe
    ensures res.reg.inlining == r.inlining && r.converted.Keys <= res.reg.converted.Keys
    decreases Todo(c, r), Open(c, r), Ref(Some(def)), 0
  {
    match PlanFor(c, r, def)
    case Known(o, reg) => Result(o, reg)
    case Component(name, start) =>
      TodoFewer(c, r, def, start);
      BodyRefsIn(c, def);
      var done := ConvertF(c, start, Body(c, def));
      Result(ORef(name), Store(done.reg, name, done.out))
    case Inline(start) =>
      OpenFewer(c, r, def, start);
      BodyRefsIn(c, def);
      var done := ConvertF(c, start, Body(c, def));
      Result(done.out, done.reg.(inlining := done.reg.inlining - {def}))
  }

  lemma BodyRefsIn(c: Context, def: string)
    requires Closed(c)
    ensures RefsIn(Body(c, def), c.universe)
  {
  }
}
