/**
  Container starts over the recipe database: an optional rebuild, the bootstrap of an empty database, and the
  one-time load of ingredient tags. A start may be cut between any two writes; the next start begins again.
*/
module Startup {
  import opened IngredientTags

  // ----- the two decisions -----

  datatype BootstrapReason = BootstrapDisabled | Rebuilt | FreshDatabase | HasData

  datatype TagsReason = TagsDisabled | BootstrapLoaded | NoCatalog | AlreadyTagged | NeverLoaded

  function DecideBootstrap(enabled: bool, rebuilt: bool, databaseEmpty: bool): BootstrapReason
  {
    if !enabled then BootstrapDisabled
    else if rebuilt then Rebuilt
    else if databaseEmpty then FreshDatabase
    else HasData
  }

  predicate RunsBootstrap(reason: BootstrapReason)
  {
    reason.Rebuilt? || reason.FreshDatabase?
  }

  function DecideTagsLoad(enabled: bool, bootstrapRan: bool, ingredientCount: nat, taggedCount: nat): TagsReason
  {
    if !enabled then TagsDisabled
    else if bootstrapRan then BootstrapLoaded
    else if ingredientCount == 0 then NoCatalog
    else if taggedCount > 0 then AlreadyTagged
    else NeverLoaded
  }

  function TaggedCount(rows: seq<IngredientRow>): nat
  {
    if rows == [] then 0 else TaggedCount(rows[..|rows| - 1]) + (if Untagged(rows[|rows| - 1].tags) then 0 else 1)
  }

  predicate AnyTagged(rows: seq<IngredientRow>)
  {
    exists row :: row in rows && !Untagged(row.tags)
  }

  lemma {:induction false} CountedAnyTagged(rows: seq<IngredientRow>)
    ensures TaggedCount(rows) > 0 <==> AnyTagged(rows)
  {
    if rows != [] {
      var n := |rows| - 1;
      CountedAnyTagged(rows[..n]);
      assert rows == rows[..n] + [rows[n]];
      assert forall row :: row in rows <==> row in rows[..n] || row == rows[n];
    }
  }

  // ----- one start -----

  /** A recipe of the import file, with the names of its ingredients. */
  datatype RecipeInput = RecipeInput(id: string, uses: seq<string>)

  /**
    The settings and files of one start; `validBatch` stands for what the import verifies of its file before
    any write, apart from repeated ids.
  */
  datatype Env = Env(
    rebuild: bool,
    bootstrapEnabled: bool,
    tagsEnabled: bool,
    catalog: seq<string>,
    tagFile: TagFile,
    recipeFile: seq<RecipeInput>,
    validBatch: bool)

  /** What the running start does next; `Off` before the first start and after a failed step. */
  datatype Phase =
    | Off
    | Begun(env: Env)
    | Migrating(env: Env)
    | LoadingCatalog(env: Env, names: seq<string>)
    | LoadingTags(env: Env)
    | Importing(env: Env, recipes: seq<RecipeInput>)
    | DecidingTags(env: Env, bootstrapRan: bool)
    | TagsNeeded(env: Env)
    | Finished(env: Env)

  /** `commits` counts the tag loads since the last rebuild, `empty` those of them that tagged nothing. */
  datatype System = System(db: Db, phase: Phase, commits: nat, empty: nat)

  datatype Action = Start(env: Env) | Advance

  const EMPTY_DB := Db([], [], [])

  predicate IsEmptyDb(db: Db)
  {
    db.recipes == [] && db.ingredients == []
  }

  predicate HasName(rows: seq<IngredientRow>, name: string)
  {
    exists row :: row in rows && row.name == name
  }

  /** A catalog name becomes a row without tags, unless there is one already. */
  function WithName(db: Db, name: string): Db
  {
    if HasName(db.ingredients, name) then db
    else Db(db.ingredients + [IngredientRow(name, Tags({}, {}))], db.recipes, db.links)
  }

  function LinksOfOthers(links: seq<Link>, recipe: string): seq<Link>
  {
    if links == [] then []
    else (if links[0].recipe == recipe then [] else [links[0]]) + LinksOfOthers(links[1..], recipe)
  }

  function NewLinks(input: RecipeInput): seq<Link>
  {
    seq(|input.uses|, i requires 0 <= i < |input.uses| => Link(input.id, input.uses[i]))
  }

  function Upserted(rows: seq<RecipeRow>, row: RecipeRow): seq<RecipeRow>
  {
    if rows == [] then [row]
    else if rows[0].id == row.id then [row] + rows[1..]
    else [rows[0]] + Upserted(rows[1..], row)
  }

  predicate Resolves(db: Db, input: RecipeInput)
  {
    && (forall i | 0 <= i < |input.uses| :: HasName(db.ingredients, input.uses[i]))
    && (forall i, j | 0 <= i < j < |input.uses| :: input.uses[i] != input.uses[j])
  }

  /** One imported recipe, with the union of its ingredients' tags. */
  function WithRecipe(db: Db, input: RecipeInput): Db
  {
    var linked := Db(db.ingredients, db.recipes, LinksOfOthers(db.links, input.id) + NewLinks(input));
    Db(db.ingredients, Upserted(db.recipes, RecipeRow(input.id, DerivedFor(linked, input.id))), linked.links)
  }

  predicate DistinctIds(inputs: seq<RecipeInput>)
  {
    forall i, j | 0 <= i < j < |inputs| :: inputs[i].id != inputs[j].id
  }

  /** The import refuses a bad file, and a table with recipes, whose clearing asks for a confirmation. */
  predicate CanImport(db: Db, env: Env)
  {
    env.validBatch && DistinctIds(env.recipeFile) && db.recipes == []
  }

  function Committed(s: System, env: Env): System
  {
    var db := TagsLoaded(s.db, env.tagFile.entries);
    System(db, s.phase, s.commits + 1, s.empty + (if AnyTagged(db.ingredients) then 0 else 1))
  }

  /** The next write or decision of the running start. */
  function Advanced(s: System): System
  {
    match s.phase
    case Off => s
    case Finished(_) => s
    case Begun(env) =>
      if env.rebuild then System(EMPTY_DB, Migrating(env), 0, 0) else s.(phase := Migrating(env))
    case Migrating(env) =>
      if RunsBootstrap(DecideBootstrap(env.bootstrapEnabled, env.rebuild, env.rebuild || IsEmptyDb(s.db)))
      then s.(phase := LoadingCatalog(env, env.catalog))
      else s.(phase := DecidingTags(env, false))
    case LoadingCatalog(env, names) =>
      if names == [] then s.(phase := LoadingTags(env))
      else s.(db := WithName(s.db, names[0]), phase := LoadingCatalog(env, names[1..]))
    case LoadingTags(env) =>
      if !Consistent(env.tagFile) then s.(phase := Off) else AfterBootstrapTags(Committed(s, env), env)
    case Importing(env, recipes) =>
      if recipes == [] then s.(phase := DecidingTags(env, true))
      else if !Resolves(s.db, recipes[0]) then s.(phase := Off)
      else s.(db := WithRecipe(s.db, recipes[0]), phase := Importing(env, recipes[1..]))
    case DecidingTags(env, bootstrapRan) =>
      if DecideTagsLoad(env.tagsEnabled, bootstrapRan, |s.db.ingredients|, TaggedCount(s.db.ingredients)).NeverLoaded?
      then s.(phase := TagsNeeded(env))
      else s.(phase := Finished(env))
    case TagsNeeded(env) =>
      if !Consistent(env.tagFile) then s.(phase := Off) else WithPhase(Committed(s, env), Finished(env))
  }

  function WithPhase(s: System, phase: Phase): System
  {
    s.(phase := phase)
  }

  function AfterBootstrapTags(s: System, env: Env): System
  {
    if CanImport(s.db, env) then s.(phase := Importing(env, env.recipeFile)) else s.(phase := Off)
  }

  /** A start may come at any moment: it cuts the one before. */
  function Step(s: System, a: Action): System
  {
    match a
    case Start(env) => s.(phase := Begun(env))
    case Advance => Advanced(s)
  }

  function After(s: System, actions: seq<Action>): System
    decreases |actions|
  {
    if actions == [] then s else After(Step(s, actions[0]), actions[1..])
  }

  /** The database before the first start of the runs looked at. */
  function Before(db: Db): System
  {
    System(db, Off, 0, 0)
  }

  lemma {:induction false} AlwaysHolds(s: System, actions: seq<Action>, kind: Action -> bool, inv: System -> bool)
    requires inv(s) && forall i | 0 <= i < |actions| :: kind(actions[i])
    requires forall t: System, a: Action :: kind(a) && inv(t) ==> inv(Step(t, a))
    ensures inv(After(s, actions))
    decreases |actions|
  {
    if actions != [] {
      assert kind(actions[0]);
      AlwaysHolds(Step(s, actions[0]), actions[1..], kind, inv);
    }
  }

  // ----- every recipe carries the union -----

  lemma WithNameKeepsUnion(db: Db, name: string)
    requires RecipesCarryUnion(db)
    ensures RecipesCarryUnion(WithName(db, name))
  {
    var out := WithName(db, name);
    forall recipe, tag
      ensures UsesAllergen(out, recipe, tag) == UsesAllergen(db, recipe, tag)
      ensures UsesDiet(out, recipe, tag) == UsesDiet(db, recipe, tag)
    {
      assert forall row :: row in db.ingredients ==> row in out.ingredients;
      assert forall row :: row in out.ingredients ==> row in db.ingredients || row.tags == Tags({}, {});
    }
  }

  lemma {:induction false} OthersKept(links: seq<Link>, recipe: string, link: Link)
    ensures link in LinksOfOthers(links, recipe) <==> link in links && link.recipe != recipe
  {
    if links != [] { OthersKept(links[1..], recipe, link); }
  }

  lemma {:induction false} UpsertedRows(rows: seq<RecipeRow>, row: RecipeRow, i: nat)
    requires i < |Upserted(rows, row)|
    ensures Upserted(rows, row)[i] == row || (Upserted(rows, row)[i] in rows)
  {
    if rows != [] && rows[0].id != row.id && i > 0 {
      UpsertedRows(rows[1..], row, i - 1);
    }
  }

  /** No two rows have one id, so replacing the first row of an id replaces them all. */
  predicate UniqueIds(rows: seq<RecipeRow>)
  {
    forall i, j | 0 <= i < j < |rows| :: rows[i].id != rows[j].id
  }

  lemma {:induction false} UpsertedIds(rows: seq<RecipeRow>, row: RecipeRow, i: nat)
    requires UniqueIds(rows) && i < |Upserted(rows, row)|
    ensures Upserted(rows, row)[i] == row || (Upserted(rows, row)[i] in rows && Upserted(rows, row)[i].id != row.id)
    ensures UniqueIds(Upserted(rows, row))
  {
    if rows == [] {
    } else if rows[0].id == row.id {
      assert forall j | 0 < j < |rows| :: rows[j].id != rows[0].id;
    } else {
      var rest := Upserted(rows[1..], row);
      if rest != [] { UpsertedIds(rows[1..], row, if i == 0 then 0 else i - 1); }
      forall j | 0 <= j < |rest| ensures rest[j].id != rows[0].id {
        UpsertedRows(rows[1..], row, j);
        if rest[j] in rows[1..] { var k :| 0 <= k < |rows[1..]| && rows[1..][k] == rest[j]; assert rows[k + 1] == rest[j]; }
      }
    }
  }

  /** The recipes, links and rows of the other recipes are untouched, and the new one gets its union. */
  lemma WithRecipeKeepsUnion(db: Db, input: RecipeInput)
    requires RecipesCarryUnion(db) && UniqueIds(db.recipes)
    ensures RecipesCarryUnion(WithRecipe(db, input)) && UniqueIds(WithRecipe(db, input).recipes)
  {
    var out := WithRecipe(db, input);
    var linked := Db(db.ingredients, db.recipes, out.links);
    var row := RecipeRow(input.id, DerivedFor(linked, input.id));
    UpsertedNotEmpty(db.recipes, row);
    UpsertedIds(db.recipes, row, 0);
    forall r | 0 <= r < |out.recipes| ensures IsUnionFor(out, out.recipes[r].id, out.recipes[r].tags) {
      UpsertedIds(db.recipes, row, r);
      if out.recipes[r] == row {
        DerivedIsUnion(out, input.id);
        assert DerivedFor(out, input.id) == DerivedFor(linked, input.id);
      } else {
        OtherRecipeSame(db, input, out.recipes[r]);
      }
    }
  }

  lemma UpsertedNotEmpty(rows: seq<RecipeRow>, row: RecipeRow)
    ensures Upserted(rows, row) != []
  {
  }

  lemma OtherRecipeSame(db: Db, input: RecipeInput, row: RecipeRow)
    requires RecipesCarryUnion(db) && row in db.recipes && row.id != input.id
    ensures IsUnionFor(WithRecipe(db, input), row.id, row.tags)
  {
    var out := WithRecipe(db, input);
    var r :| 0 <= r < |db.recipes| && db.recipes[r] == row;
    assert IsUnionFor(db, row.id, row.tags);
    forall link: Link | link.recipe == row.id ensures link in out.links <==> link in db.links {
      OthersKept(db.links, input.id, link);
      assert link !in NewLinks(input);
    }
    forall tag ensures UsesAllergen(out, row.id, tag) == UsesAllergen(db, row.id, tag) {}
    forall tag ensures UsesDiet(out, row.id, tag) == UsesDiet(db, row.id, tag) {}
  }

  ghost predicate Carried(s: System)
  {
    RecipesCarryUnion(s.db) && UniqueIds(s.db.recipes)
  }

  lemma CommitKeepsCarried(s: System, env: Env)
    requires Carried(s)
    ensures Carried(Committed(s, env))
  {
    LoadedCarriesUnion(s.db, env.tagFile.entries);
    var rows := Committed(s, env).db.recipes;
    forall i | 0 <= i < |rows| ensures rows[i].id == s.db.recipes[i].id {}
  }

  lemma AdvanceKeepsCarried(s: System)
    requires Carried(s)
    ensures Carried(Advanced(s))
  {
    match s.phase
    case LoadingCatalog(env, names) => if names != [] { WithNameKeepsUnion(s.db, names[0]); }
    case LoadingTags(env) => CommitKeepsCarried(s, env);
    case TagsNeeded(env) => CommitKeepsCarried(s, env);
    case Importing(env, recipes) => if recipes != [] { WithRecipeKeepsUnion(s.db, recipes[0]); }
    case _ =>
  }

  /**
    Over any number of starts, each cut between any two writes and each with its own files and settings,
    every recipe's tags are at every moment the union of its ingredients' tags.
  */
  lemma RecipesAlwaysCarryUnion(db: Db, actions: seq<Action>)
    requires RecipesCarryUnion(db) && UniqueIds(db.recipes)
    ensures RecipesCarryUnion(After(Before(db), actions).db)
  {
    forall t: System, a: Action | Carried(t) ensures Carried(Step(t, a)) {
      if a.Advance? { AdvanceKeepsCarried(t); }
    }
    AlwaysHolds(Before(db), actions, _ => true, (t: System) => Carried(t));
  }

  /** A database just migrated, with empty tag columns, satisfies the condition. */
  lemma MigratedBaseCarriesUnion(db: Db)
    requires forall row | row in db.ingredients :: Untagged(row.tags)
    requires forall row | row in db.recipes :: Untagged(row.tags)
    ensures RecipesCarryUnion(db)
  {
    forall r | 0 <= r < |db.recipes| ensures IsUnionFor(db, db.recipes[r].id, db.recipes[r].tags) {
      assert db.recipes[r] in db.recipes;
    }
  }

  // ----- a finished start leaves the ingredients tagged -----

  /** The file gives no tag to any of the rows. */
  predicate NothingToTag(rows: seq<IngredientRow>, entries: seq<Entry>)
  {
    forall row | row in rows :: Untagged(Retagged(row, entries).tags)
  }

  lemma {:induction false} RetaggedTwice(row: IngredientRow, entries: seq<Entry>)
    ensures Retagged(Retagged(row, entries), entries) == Retagged(row, entries)
  {
    if entries != [] && entries[|entries| - 1].name != row.name {
      var rest := entries[..|entries| - 1];
      SameName(row, rest);
      RetaggedTwice(row, rest);
    }
  }

  /** After a load some row is tagged, unless the file tags none of them. */
  lemma LoadedIsTagged(rows: seq<IngredientRow>, entries: seq<Entry>)
    ensures AnyTagged(RetaggedAll(rows, entries)) || NothingToTag(RetaggedAll(rows, entries), entries)
  {
    var out := RetaggedAll(rows, entries);
    if !AnyTagged(out) {
      forall row | row in out ensures Untagged(Retagged(row, entries).tags) {
        var i :| 0 <= i < |out| && out[i] == row;
        RetaggedTwice(rows[i], entries);
      }
    }
  }

  predicate Served(s: System, env: Env)
  {
    AnyTagged(s.db.ingredients) || NothingToTag(s.db.ingredients, env.tagFile.entries)
  }

  /** Where the tags of this start have been dealt with. */
  ghost predicate ServedInTime(s: System)
  {
    && (s.phase.Importing? ==> Served(s, s.phase.env))
    && (s.phase.DecidingTags? && s.phase.bootstrapRan ==> Served(s, s.phase.env))
    && (s.phase.Finished? && s.phase.env.tagsEnabled ==> Served(s, s.phase.env))
  }

  lemma AdvanceServes(s: System)
    requires ServedInTime(s)
    ensures ServedInTime(Advanced(s))
  {
    match s.phase
    case LoadingTags(env) => LoadedIsTagged(s.db.ingredients, env.tagFile.entries);
    case TagsNeeded(env) => LoadedIsTagged(s.db.ingredients, env.tagFile.entries);
    case DecidingTags(env, ran) => CountedAnyTagged(s.db.ingredients);
    case _ =>
  }

  /**
    Whatever happened before, a start that finishes with the loader enabled leaves some ingredient tagged,
    unless its file tags no ingredient of the table (as when the table is empty).
  */
  lemma FinishedStartIsTagged(db: Db, actions: seq<Action>)
    requires After(Before(db), actions).phase.Finished?
    requires After(Before(db), actions).phase.env.tagsEnabled
    ensures var s := After(Before(db), actions);
      AnyTagged(s.db.ingredients) || NothingToTag(s.db.ingredients, s.phase.env.tagFile.entries)
  {
    forall t: System, a: Action | ServedInTime(t) ensures ServedInTime(Step(t, a)) {
      if a.Advance? { AdvanceServes(t); }
    }
    AlwaysHolds(Before(db), actions, _ => true, (t: System) => ServedInTime(t));
  }

  // ----- the load commits once -----

  /** A bootstrap works on a database that was empty, and a load is due only on untagged rows. */
  ghost predicate LoadsOnce(s: System)
  {
    && s.empty <= s.commits <= s.empty + 1
    && (s.commits > s.empty ==> AnyTagged(s.db.ingredients))
    && (s.phase.Migrating? && s.phase.env.rebuild ==> IsEmptyDb(s.db))
    && (s.phase.LoadingCatalog? || s.phase.LoadingTags? ==> s.db.recipes == [] && !AnyTagged(s.db.ingredients))
    && (s.phase.TagsNeeded? ==> !AnyTagged(s.db.ingredients))
  }

  lemma AdvanceLoadsOnce(s: System)
    requires LoadsOnce(s)
    ensures LoadsOnce(Advanced(s))
  {
    match s.phase
    case Migrating(env) => assert s.db.ingredients == [] ==> !AnyTagged(s.db.ingredients);
    case LoadingCatalog(env, names) =>
      if names != [] && !HasName(s.db.ingredients, names[0]) {
        var rows := WithName(s.db, names[0]).ingredients;
        assert forall row :: row in rows ==> row in s.db.ingredients || row.tags == Tags({}, {});
      }
    case DecidingTags(env, ran) => CountedAnyTagged(s.db.ingredients);
    case _ =>
  }

  /**
    Between two rebuilds at most one load of the tags leaves anything tagged, over any number of cut starts;
    only a load that tagged nothing can be followed by another.
  */
  lemma TagsLoadAtMostOnce(db: Db, actions: seq<Action>)
    ensures var s := After(Before(db), actions); s.commits <= s.empty + 1
  {
    AlwaysLoadsOnce(db, actions);
  }

  lemma AlwaysLoadsOnce(db: Db, actions: seq<Action>)
    ensures LoadsOnce(After(Before(db), actions))
  {
    forall t: System, a: Action | LoadsOnce(t) ensures LoadsOnce(Step(t, a)) {
      if a.Advance? { AdvanceLoadsOnce(t); }
    }
    AlwaysHolds(Before(db), actions, _ => true, (t: System) => LoadsOnce(t));
  }

  /** The bootstrap's import always meets an empty recipe table, so clearing it never asks for a confirmation. */
  lemma ImportMeetsEmptyTable(db: Db, actions: seq<Action>)
    requires After(Before(db), actions).phase.LoadingTags?
    ensures var s := After(Before(db), actions); var env := s.phase.env;
      Consistent(env.tagFile) && env.validBatch && DistinctIds(env.recipeFile) ==> Advanced(s).phase.Importing?
  {
    AlwaysLoadsOnce(db, actions);
  }

  // ----- a cut bootstrap is never completed -----

  predicate SameNames(a: seq<IngredientRow>, b: seq<IngredientRow>)
  {
    |a| == |b| && forall i | 0 <= i < |a| :: a[i].name == b[i].name
  }

  predicate Bootstrapping(phase: Phase)
  {
    phase.LoadingCatalog? || phase.LoadingTags? || phase.Importing?
  }

  predicate NoRebuild(phase: Phase)
  {
    (phase.Begun? || phase.Migrating?) ==> !phase.env.rebuild
  }

  predicate SameIds(a: seq<RecipeRow>, b: seq<RecipeRow>)
  {
    |a| == |b| && forall i | 0 <= i < |a| :: a[i].id == b[i].id
  }

  ghost predicate Stuck(s: System, db: Db)
  {
    && !IsEmptyDb(s.db) && SameNames(s.db.ingredients, db.ingredients) && SameIds(s.db.recipes, db.recipes)
    && !Bootstrapping(s.phase) && NoRebuild(s.phase)
  }

  lemma CommitKeepsNames(s: System, env: Env)
    ensures SameNames(Committed(s, env).db.ingredients, s.db.ingredients)
    ensures SameIds(Committed(s, env).db.recipes, s.db.recipes)
  {
    forall i | 0 <= i < |s.db.ingredients|
      ensures Committed(s, env).db.ingredients[i].name == s.db.ingredients[i].name
    {
      SameName(s.db.ingredients[i], env.tagFile.entries);
    }
  }

  lemma AdvanceStaysStuck(s: System, db: Db)
    requires Stuck(s, db)
    ensures Stuck(Advanced(s), db)
  {
    if s.phase.TagsNeeded? { CommitKeepsNames(s, s.phase.env); }
  }

  predicate KeepsDatabase(a: Action)
  {
    a.Start? ==> !a.env.rebuild
  }

  lemma StepStaysStuck(s: System, a: Action, db: Db)
    requires Stuck(s, db) && KeepsDatabase(a)
    ensures Stuck(Step(s, a), db)
  {
    if a.Advance? { AdvanceStaysStuck(s, db); }
  }

  predicate WithoutRebuild(actions: seq<Action>)
  {
    forall i | 0 <= i < |actions| :: KeepsDatabase(actions[i])
  }

  /**
    On a database with anything in it, wherever a bootstrap was cut, no start without a rebuild adds an
    ingredient or imports a recipe, whatever its settings and files.
  */
  lemma CutBootstrapStaysIncomplete(db: Db, actions: seq<Action>)
    requires !IsEmptyDb(db) && WithoutRebuild(actions)
    ensures var s := After(Before(db), actions);
      SameNames(s.db.ingredients, db.ingredients) && SameIds(s.db.recipes, db.recipes)
  {
    var inv := (t: System) => Stuck(t, db);
    forall t: System, a: Action | KeepsDatabase(a) && Stuck(t, db) ensures Stuck(Step(t, a), db) {
      StepStaysStuck(t, a, db);
    }
    AlwaysHolds(Before(db), actions, KeepsDatabase, inv);
  }

  /** Some starts without a rebuild change which ingredients or which recipes there are. */
  ghost predicate Fills(db: Db, actions: seq<Action>)
  {
    && WithoutRebuild(actions)
    && var s := After(Before(db), actions);
       !(SameNames(s.db.ingredients, db.ingredients) && SameIds(s.db.recipes, db.recipes))
  }

  /** The first three steps of a start on an empty database add the first ingredient and no recipe. */
  lemma CutBootstrapIsReached(db: Db, env: Env)
    requires IsEmptyDb(db) && !env.rebuild && env.bootstrapEnabled && env.catalog != []
    ensures var s := After(Before(db), [Start(env), Advance, Advance, Advance]);
      s.db.recipes == [] && s.db.ingredients == [IngredientRow(env.catalog[0], Tags({}, {}))]
  {
    var s1 := Step(Before(db), Start(env));
    var s3 := Advanced(Advanced(s1));
    assert s3.phase == LoadingCatalog(env, env.catalog);
    var rest := [Advance, Advance, Advance];
    assert [Start(env), Advance, Advance, Advance][1..] == rest;
    assert rest[1..] == [Advance, Advance] && [Advance, Advance][1..] == [Advance] && [Advance][1..] == [];
    assert After(s3, [Advance]) == After(Advanced(s3), []) == Advanced(s3);
    assert After(Advanced(s1), [Advance, Advance]) == Advanced(s3);
    assert After(s1, rest) == Advanced(s3);
  }

  /** Starts without a rebuild can change which ingredients or recipes there are exactly from the empty database. */
  lemma FilledExactlyFromEmpty(db: Db)
    ensures (exists actions :: Fills(db, actions)) <==> IsEmptyDb(db)
  {
    if IsEmptyDb(db) {
      var env := Env(false, true, true, ["a"], TagFile([], true), [], true);
      CutBootstrapIsReached(db, env);
      assert Fills(db, [Start(env), Advance, Advance, Advance]);
    } else {
      forall actions ensures !Fills(db, actions) {
        if WithoutRebuild(actions) { CutBootstrapStaysIncomplete(db, actions); }
      }
    }
  }
}
