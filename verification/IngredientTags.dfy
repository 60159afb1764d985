/** The tag tables and the loader that fills them in one transaction. */
module IngredientTags {
  import opened Counting

  /** Tag lists read as sets: allergens, and diet tags. */
  datatype Tags = Tags(allergens: set<string>, diet: set<string>)

  datatype IngredientRow = IngredientRow(name: string, tags: Tags)

  datatype RecipeRow = RecipeRow(id: string, tags: Tags)

  datatype Link = Link(recipe: string, ingredient: string)

  datatype Db = Db(ingredients: seq<IngredientRow>, recipes: seq<RecipeRow>, links: seq<Link>)

  datatype Entry = Entry(name: string, tags: Tags)

  predicate Untagged(tags: Tags)
  {
    tags.allergens == {} && tags.diet == {}
  }

  function Union(a: Tags, b: Tags): Tags
  {
    Tags(a.allergens + b.allergens, a.diet + b.diet)
  }

  /** The curated file; `entriesOk` stands for the curation rules, which are not part of this model. */
  datatype TagFile = TagFile(entries: seq<Entry>, entriesOk: bool)

  predicate DistinctNames(entries: seq<Entry>)
  {
    forall i, j | 0 <= i < j < |entries| :: entries[i].name != entries[j].name
  }

  /** The loader refuses any other file before it writes. */
  predicate Consistent(file: TagFile)
  {
    DistinctNames(file.entries) && file.entriesOk
  }

  // ----- what the tables are to satisfy -----

  /** A recipe has a tag because one of its ingredients has it. */
  predicate UsesAllergen(db: Db, recipe: string, tag: string)
  {
    exists link, row :: link in db.links && row in db.ingredients && Joins(link, recipe, row) && tag in row.tags.allergens
  }

  predicate UsesDiet(db: Db, recipe: string, tag: string)
  {
    exists link, row :: link in db.links && row in db.ingredients && Joins(link, recipe, row) && tag in row.tags.diet
  }

  predicate Joins(link: Link, recipe: string, row: IngredientRow)
  {
    link.recipe == recipe && link.ingredient == row.name
  }

  /** The tags are exactly those some ingredient of the recipe has. */
  ghost predicate IsUnionFor(db: Db, recipe: string, tags: Tags)
  {
    && (forall tag :: tag in tags.allergens <==> UsesAllergen(db, recipe, tag))
    && (forall tag :: tag in tags.diet <==> UsesDiet(db, recipe, tag))
  }

  /** Every recipe carries the union of its ingredients' tags. */
  ghost predicate RecipesCarryUnion(db: Db)
  {
    forall r | 0 <= r < |db.recipes| :: IsUnionFor(db, db.recipes[r].id, db.recipes[r].tags)
  }

  // ----- the loader as functions -----

  function Retagged(row: IngredientRow, entries: seq<Entry>): IngredientRow
  {
    if entries == [] then row
    else
      var last := entries[|entries| - 1];
      if last.name == row.name then IngredientRow(row.name, last.tags) else Retagged(row, entries[..|entries| - 1])
  }

  function RetaggedAll(rows: seq<IngredientRow>, entries: seq<Entry>): seq<IngredientRow>
  {
    seq(|rows|, i requires 0 <= i < |rows| => Retagged(rows[i], entries))
  }

  datatype Joined = Joined(recipe: string, tags: Tags)

  function Matches(link: Link, rows: seq<IngredientRow>): seq<Joined>
  {
    if rows == [] then []
    else
      var last := rows[|rows| - 1];
      Matches(link, rows[..|rows| - 1]) + (if link.ingredient == last.name then [Joined(link.recipe, last.tags)] else [])
  }

  /** The join of the links with the ingredient rows. */
  function Join(links: seq<Link>, rows: seq<IngredientRow>): seq<Joined>
  {
    if links == [] then [] else Join(links[..|links| - 1], rows) + Matches(links[|links| - 1], rows)
  }

  /** The tag lists of one recipe, in the order of the join. */
  function GroupOf(joined: seq<Joined>, recipe: string): seq<Tags>
  {
    if joined == [] then []
    else
      var last := joined[|joined| - 1];
      GroupOf(joined[..|joined| - 1], recipe) + (if last.recipe == recipe then [last.tags] else [])
  }

  function Derived(list: seq<Tags>): Tags
  {
    if list == [] then Tags({}, {}) else Union(Derived(list[..|list| - 1]), list[|list| - 1])
  }

  function DerivedFor(db: Db, recipe: string): Tags
  {
    Derived(GroupOf(Join(db.links, db.ingredients), recipe))
  }

  function Recomputed(db: Db): seq<RecipeRow>
  {
    seq(|db.recipes|, r requires 0 <= r < |db.recipes| => RecipeRow(db.recipes[r].id, DerivedFor(db, db.recipes[r].id)))
  }

  function WithIngredients(db: Db, rows: seq<IngredientRow>): Db
  {
    Db(rows, db.recipes, db.links)
  }

  /** Both tables in one transaction. */
  function TagsLoaded(db: Db, entries: seq<Entry>): Db
  {
    var tagged := WithIngredients(db, RetaggedAll(db.ingredients, entries));
    Db(tagged.ingredients, Recomputed(tagged), db.links)
  }

  // ----- the derived tags are the union -----

  lemma {:induction false} MatchesSpec(link: Link, rows: seq<IngredientRow>, joined: Joined)
    ensures joined in Matches(link, rows) <==>
            joined.recipe == link.recipe && IngredientRow(link.ingredient, joined.tags) in rows
  {
    if rows != [] {
      var n := |rows| - 1;
      MatchesSpec(link, rows[..n], joined);
      assert rows == rows[..n] + [rows[n]];
    }
  }

  lemma {:induction false} JoinSound(links: seq<Link>, rows: seq<IngredientRow>, joined: Joined) returns (k: nat)
    requires joined in Join(links, rows)
    ensures k < |links| && links[k].recipe == joined.recipe
    ensures IngredientRow(links[k].ingredient, joined.tags) in rows
  {
    k := |links| - 1;
    MatchesSpec(links[k], rows, joined);
    if joined !in Matches(links[k], rows) { k := JoinSound(links[..k], rows, joined); }
  }

  lemma {:induction false} JoinComplete(links: seq<Link>, rows: seq<IngredientRow>, k: nat, tags: Tags)
    requires k < |links| && IngredientRow(links[k].ingredient, tags) in rows
    ensures Joined(links[k].recipe, tags) in Join(links, rows)
  {
    var n := |links| - 1;
    if k == n {
      MatchesSpec(links[n], rows, Joined(links[n].recipe, tags));
    } else {
      JoinComplete(links[..n], rows, k, tags);
    }
  }

  lemma {:induction false} GroupSpec(joined: seq<Joined>, recipe: string, tags: Tags)
    ensures tags in GroupOf(joined, recipe) <==> Joined(recipe, tags) in joined
  {
    if joined != [] {
      var n := |joined| - 1;
      GroupSpec(joined[..n], recipe, tags);
      assert joined == joined[..n] + [joined[n]];
    }
  }

  lemma {:induction false} DerivedSpec(list: seq<Tags>, tag: string)
    ensures tag in Derived(list).allergens <==> exists t :: t in list && tag in t.allergens
    ensures tag in Derived(list).diet <==> exists t :: t in list && tag in t.diet
  {
    if list != [] {
      var n := |list| - 1;
      DerivedSpec(list[..n], tag);
      assert list == list[..n] + [list[n]];
      assert forall t :: t in list <==> t in list[..n] || t == list[n];
    }
  }

  /** A tag list is in a recipe's group because of a link and an ingredient row. */
  lemma GroupSound(db: Db, recipe: string, tags: Tags) returns (link: Link, row: IngredientRow)
    requires tags in GroupOf(Join(db.links, db.ingredients), recipe)
    ensures link in db.links && row in db.ingredients && Joins(link, recipe, row) && row.tags == tags
  {
    GroupSpec(Join(db.links, db.ingredients), recipe, tags);
    var k := JoinSound(db.links, db.ingredients, Joined(recipe, tags));
    link, row := db.links[k], IngredientRow(db.links[k].ingredient, tags);
  }

  lemma GroupComplete(db: Db, recipe: string, link: Link, row: IngredientRow)
    requires link in db.links && row in db.ingredients && Joins(link, recipe, row)
    ensures row.tags in GroupOf(Join(db.links, db.ingredients), recipe)
  {
    var k :| 0 <= k < |db.links| && db.links[k] == link;
    assert row == IngredientRow(link.ingredient, row.tags);
    JoinComplete(db.links, db.ingredients, k, row.tags);
    GroupSpec(Join(db.links, db.ingredients), recipe, row.tags);
  }

  lemma DerivedAllergen(db: Db, recipe: string, tag: string)
    ensures tag in DerivedFor(db, recipe).allergens <==> UsesAllergen(db, recipe, tag)
  {
    var list := GroupOf(Join(db.links, db.ingredients), recipe);
    DerivedSpec(list, tag);
    if tag in Derived(list).allergens {
      var t :| t in list && tag in t.allergens;
      var link, row := GroupSound(db, recipe, t);
    }
    if UsesAllergen(db, recipe, tag) {
      var link, row :| link in db.links && row in db.ingredients && Joins(link, recipe, row) && tag in row.tags.allergens;
      GroupComplete(db, recipe, link, row);
    }
  }

  lemma DerivedDiet(db: Db, recipe: string, tag: string)
    ensures tag in DerivedFor(db, recipe).diet <==> UsesDiet(db, recipe, tag)
  {
    var list := GroupOf(Join(db.links, db.ingredients), recipe);
    DerivedSpec(list, tag);
    if tag in Derived(list).diet {
      var t :| t in list && tag in t.diet;
      var link, row := GroupSound(db, recipe, t);
    }
    if UsesDiet(db, recipe, tag) {
      var link, row :| link in db.links && row in db.ingredients && Joins(link, recipe, row) && tag in row.tags.diet;
      GroupComplete(db, recipe, link, row);
    }
  }

  /** The derived tags of a recipe are exactly the tags its ingredients have. */
  lemma DerivedIsUnion(db: Db, recipe: string)
    ensures IsUnionFor(db, recipe, DerivedFor(db, recipe))
  {
    forall tag ensures tag in DerivedFor(db, recipe).allergens <==> UsesAllergen(db, recipe, tag) {
      DerivedAllergen(db, recipe, tag);
    }
    forall tag ensures tag in DerivedFor(db, recipe).diet <==> UsesDiet(db, recipe, tag) {
      DerivedDiet(db, recipe, tag);
    }
  }

  lemma RecomputedCarriesUnion(db: Db)
    ensures RecipesCarryUnion(Db(db.ingredients, Recomputed(db), db.links))
  {
    var out := Db(db.ingredients, Recomputed(db), db.links);
    forall r | 0 <= r < |out.recipes| ensures IsUnionFor(out, out.recipes[r].id, out.recipes[r].tags) {
      DerivedIsUnion(out, out.recipes[r].id);
      assert DerivedFor(out, out.recipes[r].id) == DerivedFor(db, db.recipes[r].id);
    }
  }

  /** Whatever the recipes carried before, after the transaction every recipe carries the union. */
  lemma LoadedCarriesUnion(db: Db, entries: seq<Entry>)
    ensures RecipesCarryUnion(TagsLoaded(db, entries))
  {
    RecomputedCarriesUnion(WithIngredients(db, RetaggedAll(db.ingredients, entries)));
  }

  // ----- the loader as code -----

  function CountNamed(rows: seq<IngredientRow>, name: string): nat
  {
    if rows == [] then 0 else CountNamed(rows[..|rows| - 1], name) + One(rows[|rows| - 1].name == name)
  }

  lemma {:induction false} CountNamedRetagged(rows: seq<IngredientRow>, entries: seq<Entry>, name: string)
    ensures CountNamed(RetaggedAll(rows, entries), name) == CountNamed(rows, name)
  {
    if rows != [] {
      var n := |rows| - 1;
      assert RetaggedAll(rows, entries)[..n] == RetaggedAll(rows[..n], entries);
      CountNamedRetagged(rows[..n], entries, name);
      SameName(rows[n], entries);
    }
  }

  lemma {:induction false} SameName(row: IngredientRow, entries: seq<Entry>)
    ensures Retagged(row, entries).name == row.name
  {
    if entries != [] { SameName(row, entries[..|entries| - 1]); }
  }

  /** Applying one more entry. */
  lemma RetagNext(rows: seq<IngredientRow>, entries: seq<Entry>, entry: Entry)
    ensures RetaggedAll(RetaggedAll(rows, entries), [entry]) == RetaggedAll(rows, entries + [entry])
  {
    var longer := entries + [entry];
    assert longer[..|entries|] == entries;
    forall i | 0 <= i < |rows| ensures Retagged(Retagged(rows[i], entries), [entry]) == Retagged(rows[i], longer) {
      SameName(rows[i], entries);
      assert [entry][..0] == [];
    }
  }

  /** The entries that match no row, in the order of the file. */
  function Unmatched(rows: seq<IngredientRow>, entries: seq<Entry>): seq<string>
  {
    if entries == [] then []
    else
      var last := entries[|entries| - 1];
      Unmatched(rows, entries[..|entries| - 1]) + (if CountNamed(rows, last.name) == 0 then [last.name] else [])
  }

  function MatchCount(rows: seq<IngredientRow>, entries: seq<Entry>): nat
  {
    if entries == [] then 0
    else MatchCount(rows, entries[..|entries| - 1]) + CountNamed(rows, entries[|entries| - 1].name)
  }

  // ----- what a load does, without its loops -----

  predicate Names(entries: seq<Entry>, name: string)
  {
    exists e :: e in entries && e.name == name
  }

  /** Every row keeps its name, and has the tags the file gives that name, or its own if the file gives none. */
  ghost predicate TagsGiven(before: seq<IngredientRow>, entries: seq<Entry>, after: seq<IngredientRow>)
  {
    && |after| == |before|
    && (forall i | 0 <= i < |after| :: after[i].name == before[i].name)
    && (forall i, e | 0 <= i < |after| && e in entries && e.name == after[i].name :: after[i].tags == e.tags)
    && (forall i | 0 <= i < |after| && !Names(entries, after[i].name) :: after[i] == before[i])
  }

  lemma {:induction false} RetaggedExactly(row: IngredientRow, entries: seq<Entry>)
    requires DistinctNames(entries)
    ensures Retagged(row, entries).name == row.name
    ensures forall e | e in entries && e.name == row.name :: Retagged(row, entries).tags == e.tags
    ensures !Names(entries, row.name) ==> Retagged(row, entries) == row
  {
    if entries != [] {
      var n := |entries| - 1;
      assert entries == entries[..n] + [entries[n]];
      RetaggedExactly(row, entries[..n]);
      if entries[n].name == row.name {
        assert entries[n] in entries;
        forall e | e in entries && e.name == row.name ensures e == entries[n] {
          var i :| 0 <= i <= n && entries[i] == e;
        }
      } else {
        assert forall e :: e in entries[..n] ==> e in entries;
      }
    }
  }

  /** The load gives the tags of the file, and exactly the names without a row are reported as missing. */
  lemma LoadGivesTags(db: Db, entries: seq<Entry>)
    requires DistinctNames(entries)
    ensures TagsGiven(db.ingredients, entries, TagsLoaded(db, entries).ingredients)
    ensures forall name :: name in Unmatched(db.ingredients, entries) <==>
              Names(entries, name) && forall row | row in db.ingredients :: row.name != name
  {
    forall i | 0 <= i < |db.ingredients|
      ensures TagsGiven([db.ingredients[i]], entries, [Retagged(db.ingredients[i], entries)])
    {
      RetaggedExactly(db.ingredients[i], entries);
    }
    forall name ensures name in Unmatched(db.ingredients, entries) <==>
        Names(entries, name) && forall row | row in db.ingredients :: row.name != name
    {
      MissingExactly(db.ingredients, entries, name);
    }
    LoadedRows(db, entries);
  }

  lemma LoadedRows(db: Db, entries: seq<Entry>)
    requires forall i | 0 <= i < |db.ingredients| :: TagsGiven([db.ingredients[i]], entries, [Retagged(db.ingredients[i], entries)])
    ensures TagsGiven(db.ingredients, entries, TagsLoaded(db, entries).ingredients)
  {
    var before, after := db.ingredients, TagsLoaded(db, entries).ingredients;
    forall i | 0 <= i < |after|
      ensures after[i].name == before[i].name
      ensures forall e | e in entries && e.name == after[i].name :: after[i].tags == e.tags
      ensures !Names(entries, after[i].name) ==> after[i] == before[i]
    {
      var one, out := [before[i]], [after[i]];
      assert out == [Retagged(before[i], entries)] && out[0] == after[i] && one[0] == before[i];
    }
  }

  lemma {:induction false} CountedExactly(rows: seq<IngredientRow>, name: string)
    ensures CountNamed(rows, name) == 0 <==> forall row | row in rows :: row.name != name
  {
    if rows != [] {
      var n := |rows| - 1;
      CountedExactly(rows[..n], name);
      assert rows == rows[..n] + [rows[n]];
    }
  }

  lemma {:induction false} MissingExactly(rows: seq<IngredientRow>, entries: seq<Entry>, name: string)
    ensures name in Unmatched(rows, entries) <==> Names(entries, name) && forall row | row in rows :: row.name != name
  {
    if entries != [] {
      var n := |entries| - 1;
      MissingExactly(rows, entries[..n], name);
      CountedExactly(rows, entries[n].name);
      assert entries == entries[..n] + [entries[n]];
      assert Names(entries, name) <==> Names(entries[..n], name) || entries[n].name == name;
    }
  }

  /** The rows the file names. */
  ghost function NamedRows(rows: seq<IngredientRow>, entries: seq<Entry>): set<int>
  {
    set i | 0 <= i < |rows| && Names(entries, rows[i].name)
  }

  lemma NamedMore(rows: seq<IngredientRow>, entries: seq<Entry>)
    requires DistinctNames(entries) && entries != []
    ensures |NamedRows(rows, entries)|
            == |NamedRows(rows, entries[..|entries| - 1])| + |Called(rows, entries[|entries| - 1].name)|
  {
    var n := |entries| - 1;
    var before, here := NamedRows(rows, entries[..n]), Called(rows, entries[n].name);
    NamedOnce(entries);
    assert forall e :: e in entries <==> e in entries[..n] || e == entries[n] by { assert entries == entries[..n] + [entries[n]]; }
    assert NamedRows(rows, entries) == before + here;
    assert before !! here;
  }

  /** With distinct names, as many rows are updated as have a name of the file. */
  lemma {:induction false} UpdatedExactly(rows: seq<IngredientRow>, entries: seq<Entry>)
    requires DistinctNames(entries)
    ensures MatchCount(rows, entries) == |NamedRows(rows, entries)|
  {
    if entries == [] {
      assert NamedRows(rows, entries) == {};
    } else {
      UpdatedExactly(rows, entries[..|entries| - 1]);
      RowsOfName(rows, entries[|entries| - 1].name);
      NamedMore(rows, entries);
    }
  }

  lemma NamedOnce(entries: seq<Entry>)
    requires DistinctNames(entries) && entries != []
    ensures !Names(entries[..|entries| - 1], entries[|entries| - 1].name)
  {
    var n := |entries| - 1;
    forall e | e in entries[..n] ensures e.name != entries[n].name {
      var k :| 0 <= k < n && entries[k] == e;
    }
  }

  ghost function Called(rows: seq<IngredientRow>, name: string): set<int>
  {
    set i | 0 <= i < |rows| && rows[i].name == name
  }

  lemma OneMoreCalled(rows: seq<IngredientRow>, name: string)
    requires rows != []
    ensures |Called(rows, name)| == |Called(rows[..|rows| - 1], name)| + One(rows[|rows| - 1].name == name)
  {
    var n := |rows| - 1;
    assert Called(rows, name) == Called(rows[..n], name) + if rows[n].name == name then {n} else {};
  }

  lemma {:induction false} RowsOfName(rows: seq<IngredientRow>, name: string)
    ensures CountNamed(rows, name) == |Called(rows, name)|
  {
    if rows == [] {
      assert Called(rows, name) == {};
    } else {
      RowsOfName(rows[..|rows| - 1], name);
      OneMoreCalled(rows, name);
    }
  }

  function TagsFrom(byRecipe: map<string, seq<Tags>>, id: string): Tags
  {
    Derived(if id in byRecipe then byRecipe[id] else [])
  }

  function Rewritten(rows: seq<RecipeRow>, byRecipe: map<string, seq<Tags>>): seq<RecipeRow>
  {
    seq(|rows|, r requires 0 <= r < |rows| => RecipeRow(rows[r].id, TagsFrom(byRecipe, rows[r].id)))
  }

  /** How many rows differ between two lists of the same length. */
  function Differences(a: seq<RecipeRow>, b: seq<RecipeRow>): nat
    requires |a| == |b|
  {
    if a == [] then 0 else Differences(a[..|a| - 1], b[..|b| - 1]) + One(a[|a| - 1] != b[|b| - 1])
  }

  lemma DifferencesNext(a: seq<RecipeRow>, b: seq<RecipeRow>, r: nat)
    requires |a| == |b| && r < |a|
    ensures Differences(a[..r + 1], b[..r + 1]) == Differences(a[..r], b[..r]) + One(a[r] != b[r])
  {
    assert a[..r + 1][..r] == a[..r] && b[..r + 1][..r] == b[..r];
  }

  ghost function Differing(a: seq<RecipeRow>, b: seq<RecipeRow>, n: nat): set<nat>
    requires n <= |a| == |b|
  {
    set r: nat | r < n && a[r] != b[r]
  }

  lemma OneMoreDiffering(a: seq<RecipeRow>, b: seq<RecipeRow>, n: nat)
    requires n < |a| == |b|
    ensures |Differing(a, b, n + 1)| == |Differing(a, b, n)| + One(a[n] != b[n])
  {
    assert Differing(a, b, n + 1) == Differing(a, b, n) + if a[n] != b[n] then {n} else {};
  }

  /** Counted is every position at which the rows differ. */
  lemma {:induction false} DifferencesExactly(a: seq<RecipeRow>, b: seq<RecipeRow>, n: nat)
    requires n <= |a| == |b|
    ensures Differences(a[..n], b[..n]) == |Differing(a, b, n)|
  {
    if n == 0 {
      assert Differing(a, b, 0) == {};
    } else {
      DifferencesExactly(a, b, n - 1);
      DifferencesNext(a, b, n - 1);
      OneMoreDiffering(a, b, n - 1);
    }
  }

  class TagLoader {
    var ingredients: seq<IngredientRow>
    var recipes: seq<RecipeRow>
    var links: seq<Link>

    ghost function State(): Db
      reads this
    {
      Db(ingredients, recipes, links)
    }

    /** One UPDATE: all rows of that name get the entry's tags; the number of rows is reported. */
    method UpdateRows(entry: Entry) returns (count: nat)
      modifies this`ingredients
      ensures ingredients == RetaggedAll(old(ingredients), [entry])
      ensures count == CountNamed(old(ingredients), entry.name)
    {
      count := 0;
      var rows: seq<IngredientRow> := [];
      for i := 0 to |ingredients|
        invariant |rows| == i && count == CountNamed(ingredients[..i], entry.name)
        invariant forall j | 0 <= j < i :: rows[j] == Retagged(ingredients[j], [entry])
        invariant ingredients == old(ingredients)
      {
        assert ingredients[..i + 1][..i] == ingredients[..i];
        if ingredients[i].name == entry.name {
          rows := rows + [IngredientRow(entry.name, entry.tags)];
          count := count + 1;
        } else {
          rows := rows + [ingredients[i]];
        }
      }
      assert ingredients[..|ingredients|] == ingredients;
      ingredients := rows;
    }

    method LoadIngredientTags(entries: seq<Entry>) returns (updated: nat, missing: seq<string>)
      modifies this`ingredients
      ensures ingredients == RetaggedAll(old(ingredients), entries)
      ensures updated == MatchCount(old(ingredients), entries)
      ensures missing == Unmatched(old(ingredients), entries)
    {
      updated, missing := 0, [];
      ghost var rows := ingredients;
      for i := 0 to |entries|
        invariant ingredients == RetaggedAll(rows, entries[..i])
        invariant updated == MatchCount(rows, entries[..i])
        invariant missing == Unmatched(rows, entries[..i])
      {
        var count := UpdateRows(entries[i]);
        if count == 0 {
          missing := missing + [entries[i].name];
        } else {
          updated := updated + count;
        }
        CountNamedRetagged(rows, entries[..i], entries[i].name);
        RetagNext(rows, entries[..i], entries[i]);
        assert entries[..i + 1] == entries[..i] + [entries[i]];
        assert entries[..i + 1][..i] == entries[..i];
      }
      assert entries[..|entries|] == entries;
    }

    /** The grouping loop: the tag lists of every recipe that has a joined row. */
    method Group(joined: seq<Joined>) returns (byRecipe: map<string, seq<Tags>>)
      ensures forall id :: (if id in byRecipe then byRecipe[id] else []) == GroupOf(joined, id)
    {
      byRecipe := map[];
      for i := 0 to |joined|
        invariant forall id :: (if id in byRecipe then byRecipe[id] else []) == GroupOf(joined[..i], id)
      {
        var row := joined[i];
        var list := if row.recipe in byRecipe then byRecipe[row.recipe] else [];
        assert list == GroupOf(joined[..i], row.recipe);
        byRecipe := byRecipe[row.recipe := list + [row.tags]];
        assert joined[..i + 1][..i] == joined[..i];
      }
      assert joined[..|joined|] == joined;
    }

    method WriteIfChanged(r: nat, derived: Tags) returns (wrote: bool)
      requires r < |recipes|
      modifies this`recipes
      ensures recipes == old(recipes)[r := RecipeRow(old(recipes[r].id), derived)]
      ensures wrote == (old(recipes[r].tags) != derived)
    {
      wrote := recipes[r].tags != derived;
      if wrote {
        recipes := recipes[r := RecipeRow(recipes[r].id, derived)];
      } else {
        assert recipes == recipes[r := recipes[r]];
      }
    }

    method RewriteRecipes(byRecipe: map<string, seq<Tags>>) returns (changed: nat)
      modifies this`recipes
      ensures recipes == Rewritten(old(recipes), byRecipe)
      ensures changed == Differences(old(recipes), recipes)
    {
      ghost var start, goal := recipes, Rewritten(recipes, byRecipe);
      changed := 0;
      for r := 0 to |recipes|
        invariant |recipes| == |goal|
        invariant forall j | 0 <= j < r :: recipes[j] == goal[j]
        invariant forall j | r <= j < |recipes| :: recipes[j] == start[j]
        invariant changed == Differences(start[..r], goal[..r])
      {
        var wrote := WriteIfChanged(r, TagsFrom(byRecipe, recipes[r].id));
        if wrote { changed := changed + 1; }
        DifferencesNext(start, goal, r);
      }
      assert start[..|recipes|] == start && goal[..|recipes|] == goal;
      assert recipes == goal;
    }

    /** Every recipe gets the union of its ingredients' tags; only rows that differ are written. */
    method RecomputeRecipeTags() returns (checked: nat, changed: nat)
      modifies this`recipes
      ensures recipes == Recomputed(old(State()))
      ensures RecipesCarryUnion(State())
      ensures checked == |recipes| && changed == Differences(old(recipes), recipes)
    {
      ghost var start := State();
      var byRecipe := Group(Join(links, ingredients));
      changed := RewriteRecipes(byRecipe);
      checked := |recipes|;
      assert recipes == Recomputed(start);
      RecomputedCarriesUnion(start);
    }

    /** The whole load: refused before any write, or both tables in one transaction. */
    method Load(file: TagFile) returns (ok: bool)
      modifies this
      ensures ok == Consistent(file)
      ensures State() == if ok then TagsLoaded(old(State()), file.entries) else old(State())
      ensures ok ==> RecipesCarryUnion(State())
    {
      ok := Consistent(file);
      if !ok { return; }
      var updated, missing := LoadIngredientTags(file.entries);
      var checked, changed := RecomputeRecipeTags();
    }
  }
}
