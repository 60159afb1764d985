/** What a start that is not cut does to the database: a bootstrap imports its files exactly; any other start at most tags. */
module StartupOutcome {
  import opened IngredientTags
  import opened Startup

  // ----- what the files ask for -----

  predicate HasRecipe(rows: seq<RecipeRow>, id: string)
  {
    exists row :: row in rows && row.id == id
  }

  predicate Imports(inputs: seq<RecipeInput>, id: string)
  {
    exists i | 0 <= i < |inputs| :: inputs[i].id == id
  }

  predicate Asks(inputs: seq<RecipeInput>, link: Link)
  {
    exists i | 0 <= i < |inputs| :: inputs[i].id == link.recipe && link.ingredient in inputs[i].uses
  }

  predicate Distinct(s: seq<string>)
  {
    forall i, j | 0 <= i < j < |s| :: s[i] != s[j]
  }

  predicate UniqueNames(rows: seq<IngredientRow>)
  {
    forall i, j | 0 <= i < j < |rows| :: rows[i].name != rows[j].name
  }

  /** Exactly these ingredients, exactly these recipes, each with exactly its links. */
  ghost predicate Holds(db: Db, names: seq<string>, inputs: seq<RecipeInput>)
  {
    && UniqueNames(db.ingredients) && (forall name :: HasName(db.ingredients, name) <==> name in names)
    && UniqueIds(db.recipes) && (forall id :: HasRecipe(db.recipes, id) <==> Imports(inputs, id))
    && (forall link: Link :: multiset(db.links)[link] == if Asks(inputs, link) then 1 else 0)
  }

  /** The ingredients have the tags of the file. */
  ghost predicate FileTags(rows: seq<IngredientRow>, entries: seq<Entry>)
  {
    && (forall row, e | row in rows && e in entries && e.name == row.name :: row.tags == e.tags)
    && (forall row | row in rows && !Names(entries, row.name) :: Untagged(row.tags))
  }

  /** A link needs its recipe: a foreign key. */
  ghost predicate LinksHaveRecipes(db: Db)
  {
    forall link | link in db.links :: HasRecipe(db.recipes, link.recipe)
  }

  predicate Resolvable(catalog: seq<string>, input: RecipeInput)
  {
    (forall use | use in input.uses :: use in catalog) && Distinct(input.uses)
  }

  /** The files of a start can be loaded into an empty database. */
  predicate Loadable(env: Env)
  {
    && Consistent(env.tagFile) && env.validBatch && DistinctIds(env.recipeFile)
    && forall i | 0 <= i < |env.recipeFile| :: Resolvable(env.catalog, env.recipeFile[i])
  }

  // ----- one imported recipe -----

  lemma {:induction false} OthersCount(links: seq<Link>, recipe: string, link: Link)
    ensures multiset(LinksOfOthers(links, recipe))[link] == if link.recipe == recipe then 0 else multiset(links)[link]
  {
    if links != [] {
      assert links == [links[0]] + links[1..];
      OthersCount(links[1..], recipe, link);
    }
  }

  lemma {:induction false} OnceIn(uses: seq<string>, id: string, link: Link)
    requires Distinct(uses)
    ensures multiset(NewLinks(RecipeInput(id, uses)))[link] == if link.recipe == id && link.ingredient in uses then 1 else 0
  {
    var links := NewLinks(RecipeInput(id, uses));
    if uses != [] {
      var n := |uses| - 1;
      OnceIn(uses[..n], id, link);
      assert links == NewLinks(RecipeInput(id, uses[..n])) + [Link(id, uses[n])];
      assert uses == uses[..n] + [uses[n]];
      assert uses[n] !in uses[..n];
    }
  }

  lemma {:induction false} UpsertedHas(rows: seq<RecipeRow>, row: RecipeRow, other: RecipeRow)
    requires UniqueIds(rows)
    ensures row in Upserted(rows, row)
    ensures other.id != row.id ==> (other in Upserted(rows, row) <==> other in rows)
  {
    if rows != [] {
      assert rows == [rows[0]] + rows[1..];
      if rows[0].id != row.id { UpsertedHas(rows[1..], row, other); }
    }
  }

  /**
    Importing one recipe: it is there once, new or instead of the one of its id, with exactly its links, each
    once; every other recipe and link, and every ingredient, is as it was.
  */
  lemma WithRecipeExactly(db: Db, input: RecipeInput)
    requires UniqueIds(db.recipes) && Distinct(input.uses)
    ensures var out := WithRecipe(db, input);
      && out.ingredients == db.ingredients
      && UniqueIds(out.recipes) && HasRecipe(out.recipes, input.id)
      && (forall row: RecipeRow | row.id != input.id :: row in out.recipes <==> row in db.recipes)
      && (forall link: Link :: multiset(out.links)[link] ==
           if link.recipe == input.id then (if link.ingredient in input.uses then 1 else 0) else multiset(db.links)[link])
  {
    var out := WithRecipe(db, input);
    var linked := Db(db.ingredients, db.recipes, out.links);
    var row := RecipeRow(input.id, DerivedFor(linked, input.id));
    UpsertedNotEmpty(db.recipes, row);
    UpsertedIds(db.recipes, row, 0);
    forall other: RecipeRow ensures row in out.recipes
      ensures other.id != input.id ==> (other in out.recipes <==> other in db.recipes)
    {
      UpsertedHas(db.recipes, row, other);
    }
    forall link ensures multiset(out.links)[link] ==
      if link.recipe == input.id then (if link.ingredient in input.uses then 1 else 0) else multiset(db.links)[link]
    {
      OthersCount(db.links, input.id, link);
      OnceIn(input.uses, input.id, link);
      assert NewLinks(input) == NewLinks(RecipeInput(input.id, input.uses));
    }
  }

  // ----- the steps of a bootstrap -----

  lemma EmptyHolds(db: Db)
    requires IsEmptyDb(db) && LinksHaveRecipes(db)
    ensures Holds(db, [], []) && FileTags(db.ingredients, [])
  {
    NoLinks(db);
  }

  lemma NoLinks(db: Db)
    requires LinksHaveRecipes(db)
    ensures db.links != [] ==> db.recipes != []
  {
    if db.links != [] { assert db.links[0] in db.links; }
  }

  lemma NameHolds(db: Db, names: seq<string>, name: string)
    requires Holds(db, names, []) && FileTags(db.ingredients, [])
    ensures Holds(WithName(db, name), names + [name], []) && FileTags(WithName(db, name).ingredients, [])
  {
    var row := IngredientRow(name, Tags({}, {}));
    if HasName(db.ingredients, name) {
      assert forall n :: n in names + [name] <==> n in names;
    } else {
      var rows := db.ingredients + [row];
      forall i | 0 <= i < |db.ingredients| ensures db.ingredients[i].name != name { assert db.ingredients[i] in db.ingredients; }
      assert forall r :: r in rows <==> r in db.ingredients || r == row;
      forall n ensures HasName(rows, n) <==> n in names + [name] {
        assert HasName(rows, n) <==> HasName(db.ingredients, n) || n == name by { assert row in rows; }
      }
    }
  }

  lemma LoadHolds(db: Db, names: seq<string>, entries: seq<Entry>)
    requires Holds(db, names, []) && FileTags(db.ingredients, []) && DistinctNames(entries)
    ensures Holds(TagsLoaded(db, entries), names, []) && FileTags(TagsLoaded(db, entries).ingredients, entries)
  {
    LoadGivesTags(db, entries);
    var rows := TagsLoaded(db, entries).ingredients;
    SameNamesHeld(db.ingredients, rows);
    forall row | row in rows
      ensures forall e | e in entries && e.name == row.name :: row.tags == e.tags
      ensures !Names(entries, row.name) ==> Untagged(row.tags)
    {
      var i :| 0 <= i < |rows| && rows[i] == row;
      assert db.ingredients[i] in db.ingredients;
    }
    assert db.recipes == [] by {
      if db.recipes != [] { assert HasRecipe(db.recipes, db.recipes[0].id); }
    }
  }

  lemma SameNamesHeld(a: seq<IngredientRow>, b: seq<IngredientRow>)
    requires SameNames(a, b)
    ensures UniqueNames(a) ==> UniqueNames(b)
    ensures forall name :: HasName(a, name) <==> HasName(b, name)
  {
    forall name ensures HasName(a, name) <==> HasName(b, name) {
      if row :| row in a && row.name == name {
        var i :| 0 <= i < |a| && a[i] == row;
        assert b[i] in b;
      }
      if row :| row in b && row.name == name {
        var i :| 0 <= i < |b| && b[i] == row;
        assert a[i] in a;
      }
    }
  }

  lemma ImportHolds(db: Db, names: seq<string>, done: seq<RecipeInput>, input: RecipeInput)
    requires Holds(db, names, done) && Distinct(input.uses) && !Imports(done, input.id)
    ensures Holds(WithRecipe(db, input), names, done + [input])
    ensures WithRecipe(db, input).ingredients == db.ingredients
  {
    var out, all := WithRecipe(db, input), done + [input];
    WithRecipeExactly(db, input);
    forall id ensures HasRecipe(out.recipes, id) <==> Imports(all, id) {
      OneMoreInput(done, input, Link(id, ""));
      assert id != input.id ==> (HasRecipe(out.recipes, id) <==> HasRecipe(db.recipes, id));
    }
    forall link: Link ensures multiset(out.links)[link] == if Asks(all, link) then 1 else 0 {
      OneMoreInput(done, input, link);
    }
  }

  lemma OneMoreInput(done: seq<RecipeInput>, input: RecipeInput, link: Link)
    ensures Imports(done + [input], link.recipe) <==> Imports(done, link.recipe) || link.recipe == input.id
    ensures Asks(done + [input], link) <==> Asks(done, link) || (link.recipe == input.id && link.ingredient in input.uses)
    ensures Asks(done, link) ==> Imports(done, link.recipe)
  {
    var all := done + [input];
    assert all[|done|] == input && forall i | 0 <= i < |done| :: all[i] == done[i];
  }

  // ----- a bootstrap, step by step -----

  predicate Bootstraps(db: Db, env: Env)
  {
    env.bootstrapEnabled && (env.rebuild || IsEmptyDb(db))
  }

  /** The first `k` names are loaded. */
  ghost predicate CatalogAt(db: Db, env: Env, names: seq<string>, k: nat)
  {
    k <= |env.catalog| && names == env.catalog[k..] && Holds(db, env.catalog[..k], []) && FileTags(db.ingredients, [])
  }

  /** The first `k` recipes are imported. */
  ghost predicate ImportAt(db: Db, env: Env, recipes: seq<RecipeInput>, k: nat)
  {
    && k <= |env.recipeFile| && recipes == env.recipeFile[k..] && Holds(db, env.catalog, env.recipeFile[..k])
    && forall i | 0 <= i < k :: Resolvable(env.catalog, env.recipeFile[i])
  }

  ghost predicate Booted(db: Db, env: Env)
  {
    Holds(db, env.catalog, env.recipeFile) && FileTags(db.ingredients, env.tagFile.entries)
  }

  /** Where a start that runs the bootstrap may be. */
  ghost predicate Track(s: System, env: Env)
  {
    match s.phase
    case Off => !Loadable(env)
    case Begun(e) => e == env && Bootstraps(s.db, env) && LinksHaveRecipes(s.db)
    case Migrating(e) => e == env && Bootstraps(s.db, env) && Holds(s.db, [], []) && IsEmptyDb(s.db) && FileTags(s.db.ingredients, [])
    case LoadingCatalog(e, names) => e == env && exists k: nat :: CatalogAt(s.db, env, names, k)
    case LoadingTags(e) => e == env && Holds(s.db, env.catalog, []) && FileTags(s.db.ingredients, [])
    case Importing(e, recipes) =>
      && e == env && Consistent(env.tagFile) && env.validBatch && DistinctIds(env.recipeFile)
      && FileTags(s.db.ingredients, env.tagFile.entries) && exists k: nat :: ImportAt(s.db, env, recipes, k)
    case DecidingTags(e, ran) => e == env && ran && Loadable(env) && Booted(s.db, env)
    case TagsNeeded(_) => false
    case Finished(e) => e == env && Loadable(env) && Booted(s.db, env)
  }

  lemma CatalogTracks(s: System, env: Env, names: seq<string>)
    requires Track(s, env) && s.phase == LoadingCatalog(env, names)
    ensures Track(Advanced(s), env)
  {
    var k: nat :| CatalogAt(s.db, env, names, k);
    if names == [] {
      assert env.catalog[..k] == env.catalog;
    } else {
      NameHolds(s.db, env.catalog[..k], names[0]);
      assert env.catalog[..k] + [names[0]] == env.catalog[..k + 1];
      assert CatalogAt(WithName(s.db, names[0]), env, names[1..], k + 1);
    }
  }

  lemma TagsTrack(s: System, env: Env)
    requires Track(s, env) && s.phase == LoadingTags(env)
    ensures Track(Advanced(s), env)
  {
    if Consistent(env.tagFile) {
      LoadHolds(s.db, env.catalog, env.tagFile.entries);
      var db := TagsLoaded(s.db, env.tagFile.entries);
      assert db.recipes == [] by {
        if db.recipes != [] { assert HasRecipe(db.recipes, db.recipes[0].id); }
      }
      assert env.recipeFile[..0] == [] && env.recipeFile[0..] == env.recipeFile;
      assert ImportAt(db, env, env.recipeFile, 0);
    }
  }

  lemma ResolvesExactly(db: Db, env: Env, input: RecipeInput)
    requires forall name :: HasName(db.ingredients, name) <==> name in env.catalog
    ensures Resolves(db, input) <==> Resolvable(env.catalog, input)
  {
    if Resolvable(env.catalog, input) {
      forall i | 0 <= i < |input.uses| ensures HasName(db.ingredients, input.uses[i]) { assert input.uses[i] in input.uses; }
    }
  }

  lemma ImportTracks(s: System, env: Env, recipes: seq<RecipeInput>)
    requires Track(s, env) && s.phase == Importing(env, recipes)
    ensures Track(Advanced(s), env)
  {
    var k: nat :| ImportAt(s.db, env, recipes, k);
    if recipes == [] {
      assert env.recipeFile[..k] == env.recipeFile;
    } else {
      var input := recipes[0];
      assert input == env.recipeFile[k];
      ResolvesExactly(s.db, env, input);
      if Resolves(s.db, input) {
        ImportHolds(s.db, env.catalog, env.recipeFile[..k], input);
        assert env.recipeFile[..k] + [input] == env.recipeFile[..k + 1];
        assert ImportAt(WithRecipe(s.db, input), env, recipes[1..], k + 1);
      }
    }
  }

  lemma AdvanceTracks(s: System, env: Env)
    requires Track(s, env)
    ensures Track(Advanced(s), env)
  {
    match s.phase
    case Begun(_) => EmptyHolds(if env.rebuild then EMPTY_DB else s.db);
    case Migrating(_) =>
      assert env.catalog[..0] == [] && env.catalog[0..] == env.catalog;
      assert CatalogAt(s.db, env, env.catalog, 0);
    case LoadingCatalog(_, names) => CatalogTracks(s, env, names);
    case LoadingTags(_) => TagsTrack(s, env);
    case Importing(_, recipes) => ImportTracks(s, env, recipes);
    case _ =>
  }

  /** A start that is not cut. */
  function Advances(s: System, n: nat): System
    decreases n
  {
    if n == 0 then s else Advances(Advanced(s), n - 1)
  }

  ghost predicate Finishes(s: System)
  {
    exists n: nat :: Advances(s, n).phase.Finished?
  }

  lemma {:induction false} AlwaysTracks(s: System, env: Env, n: nat)
    requires Track(s, env)
    ensures Track(Advances(s, n), env)
    decreases n
  {
    if n > 0 {
      AdvanceTracks(s, env);
      AlwaysTracks(Advanced(s), env, n - 1);
    }
  }

  function Remaining(s: System): nat
  {
    match s.phase
    case Begun(env) => |env.catalog| + |env.recipeFile| + 6
    case Migrating(env) => |env.catalog| + |env.recipeFile| + 5
    case LoadingCatalog(env, names) => |names| + |env.recipeFile| + 4
    case LoadingTags(env) => |env.recipeFile| + 3
    case Importing(_, recipes) => |recipes| + 2
    case DecidingTags(_, _) => 1
    case _ => 0
  }

  lemma {:induction false} TrackFinishes(s: System, env: Env) returns (n: nat)
    requires Track(s, env) && Loadable(env)
    ensures Advances(s, n).phase == Finished(env)
    decreases Remaining(s)
  {
    if s.phase.Finished? {
      n := 0;
    } else {
      AdvanceTracks(s, env);
      var m := TrackFinishes(Advanced(s), env);
      n := m + 1;
    }
  }

  /** Links keep their recipes through any starts, cut anywhere. */
  lemma AlwaysLinked(db: Db, actions: seq<Action>)
    requires LinksHaveRecipes(db) && UniqueIds(db.recipes)
    ensures LinksHaveRecipes(After(Before(db), actions).db) && UniqueIds(After(Before(db), actions).db.recipes)
  {
    var inv := (t: System) => LinksHaveRecipes(t.db) && UniqueIds(t.db.recipes);
    forall t: System, a: Action | inv(t) ensures inv(Step(t, a)) {
      if a.Advance? { AdvanceLinked(t); }
    }
    AlwaysHolds(Before(db), actions, _ => true, inv);
  }

  lemma AdvanceLinked(s: System)
    requires LinksHaveRecipes(s.db) && UniqueIds(s.db.recipes)
    ensures LinksHaveRecipes(Advanced(s).db) && UniqueIds(Advanced(s).db.recipes)
  {
    match s.phase
    case LoadingTags(env) => CommitLinked(s, env);
    case TagsNeeded(env) => CommitLinked(s, env);
    case Importing(env, recipes) => if recipes != [] && Resolves(s.db, recipes[0]) { ImportLinked(s.db, recipes[0]); }
    case _ =>
  }

  lemma CommitLinked(s: System, env: Env)
    requires LinksHaveRecipes(s.db) && UniqueIds(s.db.recipes)
    ensures LinksHaveRecipes(Committed(s, env).db) && UniqueIds(Committed(s, env).db.recipes)
  {
    CommitKeepsNames(s, env);
    var rows := Committed(s, env).db.recipes;
    forall link | link in s.db.links ensures HasRecipe(rows, link.recipe) {
      var row :| row in s.db.recipes && row.id == link.recipe;
      var i :| 0 <= i < |s.db.recipes| && s.db.recipes[i] == row;
      assert rows[i] in rows;
    }
  }

  lemma ImportLinked(db: Db, input: RecipeInput)
    requires LinksHaveRecipes(db) && UniqueIds(db.recipes) && Resolves(db, input)
    ensures LinksHaveRecipes(WithRecipe(db, input)) && UniqueIds(WithRecipe(db, input).recipes)
  {
    var out := WithRecipe(db, input);
    WithRecipeExactly(db, input);
    forall link | link in out.links ensures HasRecipe(out.recipes, link.recipe) {
      assert multiset(out.links)[link] > 0;
      if link.recipe != input.id {
        assert multiset(db.links)[link] > 0;
        assert link in db.links;
        var row :| row in db.recipes && row.id == link.recipe;
        assert row in out.recipes;
      }
    }
  }

  /**
    After any starts, each cut anywhere: a start on an empty or rebuilt database with the bootstrap enabled, if it
    is not cut, finishes exactly when its files can be loaded; and whenever it has finished, the database
    holds exactly the names of the catalog, tagged by the file, and the recipes of the import with their links.
  */
  lemma BootstrapOutcome(db: Db, actions: seq<Action>, env: Env)
    requires LinksHaveRecipes(db) && UniqueIds(db.recipes)
    requires Bootstraps(After(Before(db), actions).db, env)
    ensures var s := Step(After(Before(db), actions), Start(env));
      && (Finishes(s) <==> Loadable(env))
      && (forall n: nat | Advances(s, n).phase.Finished? :: Booted(Advances(s, n).db, env))
  {
    AlwaysLinked(db, actions);
    TrackOutcome(Step(After(Before(db), actions), Start(env)), env);
  }

  lemma TrackOutcome(s: System, env: Env)
    requires Track(s, env)
    ensures Finishes(s) <==> Loadable(env)
    ensures forall n: nat | Advances(s, n).phase.Finished? :: Booted(Advances(s, n).db, env)
  {
    forall n: nat ensures Track(Advances(s, n), env) { AlwaysTracks(s, env, n); }
    if Loadable(env) { var n := TrackFinishes(s, env); }
  }

  // ----- any other start -----

  /** A start that runs no bootstrap. */
  lemma OtherOutcome(s: System, env: Env)
    requires s.phase == Begun(env) && !Bootstraps(s.db, env)
    ensures var base := if env.rebuild then EMPTY_DB else s.db;
      var due := env.tagsEnabled && base.ingredients != [] && forall row | row in base.ingredients :: Untagged(row.tags);
      && (!due ==> Advances(s, 3).phase == Finished(env) && Advances(s, 3).db == base)
      && (due && !Consistent(env.tagFile) ==> Advances(s, 4).phase == Off && Advances(s, 4).db == base)
      && (due && Consistent(env.tagFile) ==>
           var after := Advances(s, 4);
           && after.phase == Finished(env) && after.db.links == base.links && SameIds(after.db.recipes, base.recipes)
           && TagsGiven(base.ingredients, env.tagFile.entries, after.db.ingredients) && RecipesCarryUnion(after.db))
  {
    var base := if env.rebuild then EMPTY_DB else s.db;
    var s2 := Advanced(Advanced(s));
    assert s2.db == base && s2.phase == DecidingTags(env, false);
    var s3 := Advanced(s2);
    assert Advances(s, 3) == s3 && Advances(s, 4) == Advanced(s3) by { ThreeAdvances(s); }
    CountedAnyTagged(base.ingredients);
    if s3.phase.TagsNeeded? && Consistent(env.tagFile) {
      LoadGivesTags(base, env.tagFile.entries);
      LoadedCarriesUnion(base, env.tagFile.entries);
      CommitKeepsNames(s3, env);
    }
  }

  lemma ThreeAdvances(s: System)
    ensures Advances(s, 3) == Advanced(Advanced(Advanced(s)))
    ensures Advances(s, 4) == Advanced(Advanced(Advanced(Advanced(s))))
  {
    assert Advances(s, 4) == Advances(Advanced(s), 3) == Advances(Advanced(Advanced(s)), 2);
    assert Advances(s, 3) == Advances(Advanced(s), 2) == Advances(Advanced(Advanced(s)), 1);
    assert Advances(Advanced(Advanced(s)), 2) == Advances(Advanced(Advanced(Advanced(s))), 1);
  }
}
