/**
  The registry as the object it is: `convert` and `resolve` update its maps during the recursion, the
  translator fills and edits one local object per schema. Every method does exactly what the functions of
  `Registry` say.
*/
module ComponentRegistryClass {
  import opened Options
  import opened JsonSchema
  import opened OpenApi
  import opened SchemaRewrite
  import opened ObjectRewrite
  import opened ComponentNames
  import opened Fingerprint
  import opened Registry
  import opened RegistryRuns

  /** Everything after the keyword loop, as edits of one local object. */
  method Rewrite(draft: Out) returns (out: Out)
    requires draft.ONode?
    ensures out == Finish(draft)
    ensures Rewritten(draft, out)
  {
    FinishComes(draft);
    out := draft;
    if out.typ.Many? {
      var types := NonNullTypes(out.typ.ts);
      var nullable := |types| != |out.typ.ts|;
      if |types| == 1 {
        out := out.(typ := One(types[0]));
      } else {
        out := EMPTY.(oneOf := Variants(TypeVariants(out, types)));
      }
      if nullable { out := out.(nullable := true); }
    }
    assert out == SplitTypes(draft);

    var key := 0;
    while key < 2
      invariant 0 <= key <= 2 && out.ONode?
      invariant key == 0 ==> out == SplitTypes(draft)
      invariant key == 1 ==> DropNullAnyOf(SplitTypes(draft)) == Go(out)
      invariant key == 2 ==> DropNullAnyOf(SplitTypes(draft)).Go? && DropNullOneOf(DropNullAnyOf(SplitTypes(draft)).o) == Go(out)
    {
      var variants := if key == 0 then out.anyOf else out.oneOf;
      if variants.Variants? {
        var nonNull := NonNull(variants.list);
        if |nonNull| != |variants.list| {
          if |nonNull| == 1 {
            out := if key == 0 then out.(anyOf := NoVariants) else out.(oneOf := NoVariants);
            var merged := WithNullable(nonNull[0]);
            out := Spread(merged, out);
            out := out.(nullable := true);
            return;
          }
          out := if key == 0 then out.(anyOf := Variants(nonNull)) else out.(oneOf := Variants(nonNull));
          out := out.(nullable := true);
        }
      }
      key := key + 1;
    }

    ghost var late := out;
    if out.typ == One(TNull) {
      out := out.(typ := NoType, default := None, nullable := true);
    }
    if out.allOf.Variants? && AllPlain(out.allOf.list) && |out.allOf.list| > 1 {
      out := Flatten(out);
    }
    assert out == FlattenAllOf(BareNull(late));
    if out.enum.Some? && JNull in out.enum.value {
      out := out.(enum := Some(WithoutNull(out.enum.value)), nullable := true);
    }
    if out.enum.Some? && out.typ.NoType? {
      out := EnumKind(out);
    }
  }

  /** Merging the parts of an `allOf` into one object. */
  method Flatten(o: Out) returns (out: Out)
    requires o.ONode? && o.allOf.Variants? && AllPlain(o.allOf.list) && |o.allOf.list| > 1
    ensures out == FlattenAllOf(o)
    ensures out == o.(allOf := out.allOf, typ := out.typ, props := out.props, required := out.required)
    ensures Merges(o.allOf.list, o.required, out)
  {
    FlattenMerges(o);
    var parts := o.allOf.list;
    var properties: map<string, Out> := map[];
    var required: set<string> := {};
    var i := 0;
    while i < |parts|
      invariant 0 <= i <= |parts|
      invariant AllPlain(parts[..i])
      invariant properties == MergedProps(parts[..i]) && required == MergedRequired(parts[..i])
    {
      assert parts[..i + 1][..i] == parts[..i];
      properties := properties + parts[i].props.value;
      if parts[i].required.Some? { required := required + parts[i].required.value; }
      i := i + 1;
    }
    assert parts[..i] == parts;
    out := o.(allOf := NoVariants, typ := One(TObject), props := Props(properties));
    if required != {} { out := out.(required := Some(required)); }
  }

  /** One more turn of the keyword loop. */
  lemma NextKid(c: Context, r: Reg, kids: seq<Kid>, i: nat)
    requires Closed(c) && KidsRefsIn(kids, c.universe) && i < |kids|
    ensures KidsRefsIn(kids[..i], c.universe) && KidsRefsIn(kids[..i + 1], c.universe)
    ensures RefsIn(kids[i].schema, c.universe)
    ensures var before := KidsF(c, r, kids[..i]);
      var here := ConvertF(c, before.reg, kids[i].schema);
      KidsF(c, r, kids[..i + 1]) == Result(before.out + [here.out], here.reg)
  {
    assert kids[..i + 1][..i] == kids[..i];
  }

  lemma NextEntry(c: Context, r: Reg, es: seq<Entry>, i: nat)
    requires i < |es| && Closed(c) && EntriesRefsIn(es, c.universe)
    ensures EntriesRefsIn(es[..i], c.universe) && EntriesRefsIn(es[..i + 1], c.universe)
    ensures es[i].Group? ==> KidsRefsIn(es[i].kids, c.universe)
    ensures var before := EntriesF(c, r, es[..i]);
      var here := if es[i].Group? then KidsF(c, before.reg, es[i].kids) else Result([], before.reg);
      && EntriesF(c, r, es[..i + 1]) == Result(before.out + [here.out], here.reg)
      && Draft(es[..i + 1], before.out + [here.out]) == Assign(Draft(es[..i], before.out), es[i], here.out)
  {
    assert es[..i + 1][..i] == es[..i];
    var before := EntriesF(c, r, es[..i]);
    assert forall outs: seq<Out> :: (before.out + [outs])[..i] == before.out;
  }

  /** A recursive anonymous definition, from the state its body is converted in. */
  lemma AnonymousResolved(c: Context, r: Reg, def: string, name: string, start: Reg)
    requires Closed(c) && def in c.universe && def !in r.converted && !IsAnyJson(def)
    requires ComponentNameFor(def).None? && def in r.inlining
    requires name == FreeName(r.schemas.Keys, AnonymousName(r.anon + 1))
    requires start == r.(anon := r.anon + 1, converted := r.converted[def := ORef(name)])
    ensures RefsIn(Body(c, def), c.universe)
    ensures var done := ConvertF(c, start, Body(c, def));
      ResolveF(c, r, def) == Result(ORef(name), Store(done.reg, name, done.out))
  {
    BodyRefsIn(c, def);
    assert PlanFor(c, r, def) == Component(name, start);
  }


  class ComponentRegistry {
    const definitions: map<string, Schema>
    const swaggerOwned: set<string>
    ghost const universe: set<string>
    var converted: map<string, Out>
    var inlining: set<string>
    var byFingerprint: map<(string, Schema), Out>
    var anon: nat
    var schemas: map<string, Out>

    constructor (swagger: map<string, Out>, definitions: map<string, Schema>, ghost universe: set<string>)
      ensures State() == Initial(swagger)
      ensures Fixed() == Context(definitions, swagger.Keys, universe)
    {
      this.definitions := definitions;
      this.swaggerOwned := swagger.Keys;
      this.universe := universe;
      converted, inlining, byFingerprint, anon, schemas := map[], {}, map[], 0, swagger;
    }

    ghost function Fixed(): Context
    {
      Context(definitions, swaggerOwned, universe)
    }

    ghost function State(): Reg
      reads this
    {
      Reg(converted, inlining, byFingerprint, anon, schemas)
    }

    /** The first of `wanted`, `wanted2`, `wanted3`, ... that names no component. */
    method FreshName(wanted: string) returns (name: string)
      ensures name == FreeName(schemas.Keys, wanted)
    {
      if wanted !in schemas { return wanted; }
      var i := 2;
      while wanted + Decimal(i) in schemas
        invariant i >= 2 && FreeIndex(schemas.Keys, wanted, 2) == FreeIndex(schemas.Keys, wanted, i)
        decreases TakenFrom(schemas.Keys, wanted, i)
      {
        TakenShrinks(schemas.Keys, wanted, i);
        i := i + 1;
      }
      name := wanted + Decimal(i);
    }

    method Add(wanted: string, schema: Out) returns (ref: Out)
      modifies this
      ensures ref == ORef(FreeName(old(schemas).Keys, wanted))
      ensures State() == Store(old(State()), ref.name, schema)
    {
      var name := FreshName(wanted);
      schemas := schemas[name := schema];
      ref := ORef(name);
    }

    method Convert(s: Schema) returns (out: Out)
      requires Closed(Fixed()) && RefsIn(s, universe)
      modifies this
      ensures Result(out, State()) == ConvertF(Fixed(), old(State()), s)
      decreases Todo(Fixed(), State()), Open(Fixed(), State()), s, 2
    {
      match s
      case Absent => out := EMPTY;
      case Always(_) => out := EMPTY;
      case Ref(None) => out := EMPTY;
      case Ref(Some(d)) => out := Resolve(d);
      case Obj(es) =>
        out := FillDraft(es);
        out := Rewrite(out);
    }

    /** The keyword loop: one object filled key by key. */
    method FillDraft(es: seq<Entry>) returns (out: Out)
      requires Closed(Fixed()) && EntriesRefsIn(es, universe)
      modifies this
      ensures var res := EntriesF(Fixed(), old(State()), es); out == Draft(es, res.out) && State() == res.reg
      decreases Todo(Fixed(), State()), Open(Fixed(), State()), es, 0
    {
      out := EMPTY;
      ghost var outss: seq<seq<Out>> := [];
      var i := 0;
      assert es[..0] == [];
      while i < |es|
        invariant 0 <= i <= |es| && out.ONode?
        invariant EntriesRefsIn(es[..i], universe) && Fits(es[..i], outss)
        invariant out == Draft(es[..i], outss)
        invariant Result(outss, State()) == EntriesF(Fixed(), old(State()), es[..i])
      {
        TodoShrinks(Fixed(), old(State()), State());
        var kids: seq<Out> := [];
        if es[i].Group? {
          kids := ConvertKids(es[i].kids);
        }
        NextEntry(Fixed(), old(State()), es, i);
        out := Assign(out, es[i], kids);
        outss := outss + [kids];
        i := i + 1;
      }
      assert es[..i] == es;
    }

    method ConvertKids(kids: seq<Kid>) returns (outs: seq<Out>)
      requires Closed(Fixed()) && KidsRefsIn(kids, universe)
      modifies this
      ensures Result(outs, State()) == KidsF(Fixed(), old(State()), kids)
      decreases Todo(Fixed(), State()), Open(Fixed(), State()), kids, 0
    {
      outs := [];
      var i := 0;
      assert kids[..0] == [];
      while i < |kids|
        invariant 0 <= i <= |kids| && KidsRefsIn(kids[..i], universe)
        invariant Result(outs, State()) == KidsF(Fixed(), old(State()), kids[..i])
      {
        TodoShrinks(Fixed(), old(State()), State());
        NextKid(Fixed(), old(State()), kids, i);
        var o := Convert(kids[i].schema);
        outs := outs + [o];
        i := i + 1;
      }
      assert kids[..i] == kids;
    }

    method ConvertInto(name: string, body: Schema)
      requires Closed(Fixed()) && RefsIn(body, universe)
      modifies this
      ensures var done := ConvertF(Fixed(), old(State()), body); State() == Store(done.reg, name, done.out)
      decreases Todo(Fixed(), State()), Open(Fixed(), State()), body, 3
    {
      var o := Convert(body);
      schemas := schemas[name := o];
    }

    method Resolve(def: string) returns (out: Out)
      requires Closed(Fixed()) && def in universe
      modifies this
      ensures Result(out, State()) == ResolveF(Fixed(), old(State()), def)
      decreases Todo(Fixed(), State()), Open(Fixed(), State()), Ref(Some(def)), 1
    {
      if def in converted { return converted[def]; }
      if IsAnyJson(def) { return ANY_JSON; }
      var nice := ComponentNameFor(def);
      if nice.Some? && nice.value in swaggerOwned {
        out := ORef(nice.value);
        converted := converted[def := out];
        return;
      }
      if nice.Some? {
        out := ResolveNamed(def, nice.value);
      } else if def in inlining {
        out := NameAnonymous(def);
      } else {
        out := InlineAnonymous(def);
      }
    }

    method ResolveNamed(def: string, nice: string) returns (out: Out)
      requires Closed(Fixed()) && def in universe && def !in converted && !IsAnyJson(def)
      requires ComponentNameFor(def) == Some(nice) && nice !in swaggerOwned
      modifies this
      ensures Result(out, State()) == ResolveF(Fixed(), old(State()), def)
      decreases Todo(Fixed(), State()), Open(Fixed(), State()), Ref(Some(def)), 0
    {
      var body := if def in definitions then definitions[def] else Absent;
      BodyRefsIn(Fixed(), def);
      var mark := (nice, Strip(body));
      if mark in byFingerprint {
        out := byFingerprint[mark];
        converted := converted[def := out];
        return;
      }
      var name := FreshName(nice);
      out := ORef(name);
      byFingerprint := byFingerprint[mark := out];
      converted := converted[def := out];
      schemas := schemas[name := EMPTY];
      TodoFewer(Fixed(), old(State()), def, State());
      ConvertInto(name, body);
    }

    /** A recursive anonymous type has to get a name. */
    method NameAnonymous(def: string) returns (out: Out)
      requires Closed(Fixed()) && def in universe && def !in converted && !IsAnyJson(def)
      requires ComponentNameFor(def).None? && def in inlining
      modifies this
      ensures Result(out, State()) == ResolveF(Fixed(), old(State()), def)
      decreases Todo(Fixed(), State()), Open(Fixed(), State()), Ref(Some(def)), 0
    {
      var body := if def in definitions then definitions[def] else Absent;
      BodyRefsIn(Fixed(), def);
      anon := anon + 1;
      var name := FreshName(AnonymousName(anon));
      out := ORef(name);
      converted := converted[def := out];
      TodoFewer(Fixed(), old(State()), def, State());
      AnonymousResolved(Fixed(), old(State()), def, name, State());
      ConvertInto(name, body);
    }

    method InlineAnonymous(def: string) returns (out: Out)
      requires Closed(Fixed()) && def in universe && def !in converted && !IsAnyJson(def)
      requires ComponentNameFor(def).None? && def !in inlining
      modifies this
      ensures Result(out, State()) == ResolveF(Fixed(), old(State()), def)
      decreases Todo(Fixed(), State()), Open(Fixed(), State()), Ref(Some(def)), 0
    {
      var body := if def in definitions then definitions[def] else Absent;
      BodyRefsIn(Fixed(), def);
      inlining := inlining + {def};
      OpenFewer(Fixed(), old(State()), def, State());
      out := Convert(body);
      inlining := inlining - {def};
    }
  }
}
