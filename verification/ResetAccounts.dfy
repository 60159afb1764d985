/**
  The account reset: the recipe catalog is moved to a bot's account and household, then every other user and
  household is deleted with all that cascades from them. The steps are not one transaction.
*/
module ResetAccounts {
  import opened Options

  type Id = string

  datatype User = User(googleId: Option<string>, displayName: string, email: Option<string>)

  /** The creator is set to null when that user is deleted. */
  datatype Household = Household(name: string, createdBy: Option<Id>)

  datatype Role = Owner | Member

  datatype Membership = Membership(user: Id, household: Id)

  /** `content` stands for every column but the three the reset writes. */
  datatype Recipe = Recipe(author: Id, household: Id, isCatalog: bool, content: string)

  /** A recipe's ingredient row. */
  datatype Line = Line(recipe: Id, ingredient: string, amount: string)

  datatype Kind =
    | WeeklyPlan | ShoppingList | ShoppingListArchive | ShoppingListArchiveState | ShoppingItemCheck
    | RecipeFavorite | Invitation | AgentConversation | AgentMemory | CookidooIntegration
    | OtherKind

  /** Any other row that belongs to a household. */
  datatype Record = Record(kind: Kind, household: Id, payload: string)

  datatype Db = Db(
    users: map<Id, User>,
    households: map<Id, Household>,
    memberships: map<Membership, Role>,
    recipes: map<Id, Recipe>,
    lines: set<Line>,
    records: set<Record>)

  datatype Config = Config(bot: Id, botName: string, botEmail: string, legacySub: string, home: Id, homeName: string)

  /** The foreign keys. */
  ghost predicate Integrity(db: Db)
  {
    && (forall r | r in db.recipes :: db.recipes[r].author in db.users && db.recipes[r].household in db.households)
    && (forall m | m in db.memberships :: m.user in db.users && m.household in db.households)
    && (forall h | h in db.households :: db.households[h].createdBy.Some? ==> db.households[h].createdBy.value in db.users)
    && (forall l | l in db.lines :: l.recipe in db.recipes)
    && (forall r | r in db.records :: r.household in db.households)
  }

  // ----- which recipes are the catalog -----

  predicate HasFlagged(recipes: map<Id, Recipe>)
  {
    exists r | r in recipes :: recipes[r].isCatalog
  }

  predicate HasLegacy(recipes: map<Id, Recipe>, home: Id)
  {
    exists r | r in recipes :: !recipes[r].isCatalog && recipes[r].household == home
  }

  /** By the flag where there is one, otherwise by the catalog household. */
  predicate CatalogWhere(flagged: bool, home: Id, recipe: Recipe)
  {
    if flagged then recipe.isCatalog else recipe.household == home
  }

  /** What the catalog is: the flagged recipes if there are any, else those of the catalog household. */
  ghost predicate Selected(db: Db, config: Config, id: Id)
  {
    && id in db.recipes
    && if exists r | r in db.recipes :: db.recipes[r].isCatalog then db.recipes[id].isCatalog
       else db.recipes[id].household == config.home
  }

  ghost predicate CatalogExists(db: Db, config: Config)
  {
    exists id :: Selected(db, config, id)
  }

  // ----- the steps -----

  /** Creating the bot fails when another account holds its sign-in name, which is unique. */
  predicate SubTaken(db: Db, config: Config)
  {
    config.bot !in db.users && exists u | u in db.users :: db.users[u].googleId == Some(config.legacySub)
  }

  function BotUser(users: map<Id, User>, config: Config): User
  {
    if config.bot in users
    then users[config.bot].(displayName := config.botName, email := Some(config.botEmail))
    else User(Some(config.legacySub), config.botName, Some(config.botEmail))
  }

  function UserEnsured(db: Db, config: Config): Db
  {
    db.(users := db.users[config.bot := BotUser(db.users, config)])
  }

  function HomeEnsured(db: Db, config: Config): Db
  {
    db.(households := if config.home in db.households then db.households
                      else db.households[config.home := Household(config.homeName, Some(config.bot))])
  }

  function MembershipEnsured(db: Db, config: Config): Db
  {
    db.(memberships := db.memberships[Membership(config.bot, config.home) := Owner])
  }

  /** The three upserts. */
  function Ensured(db: Db, config: Config): Db
  {
    MembershipEnsured(HomeEnsured(UserEnsured(db, config), config), config)
  }

  function MovedRecipe(recipe: Recipe, flagged: bool, config: Config): Recipe
  {
    if CatalogWhere(flagged, config.home, recipe) then Recipe(config.bot, config.home, true, recipe.content) else recipe
  }

  function Moved(db: Db, flagged: bool, config: Config): Db
  {
    db.(recipes := map r | r in db.recipes :: MovedRecipe(db.recipes[r], flagged, config))
  }

  function LinesOf(lines: set<Line>, recipes: map<Id, Recipe>): set<Line>
  {
    set l | l in lines && l.recipe in recipes
  }

  /** Deleting users takes their memberships and recipes, and the recipes' rows. */
  function UsersDropped(db: Db, keep: Id): Db
  {
    var recipes := map r | r in db.recipes && db.recipes[r].author == keep :: db.recipes[r];
    Db(map u | u in db.users && u == keep :: db.users[u],
       map h | h in db.households :: Orphaned(db.households[h], keep),
       map m | m in db.memberships && m.user == keep :: db.memberships[m],
       recipes, LinesOf(db.lines, recipes), db.records)
  }

  function Orphaned(household: Household, keep: Id): Household
  {
    if household.createdBy == Some(keep) then household else household.(createdBy := None)
  }

  /** Deleting households takes their memberships, recipes and other rows. */
  function HouseholdsDropped(db: Db, keep: Id): Db
  {
    var recipes := map r | r in db.recipes && db.recipes[r].household == keep :: db.recipes[r];
    Db(db.users,
       map h | h in db.households && h == keep :: db.households[h],
       map m | m in db.memberships && m.household == keep :: db.memberships[m],
       recipes, LinesOf(db.lines, recipes),
       set r | r in db.records && r.household == keep)
  }

  /** The rows of the ten listed kinds are removed from the household that stays. */
  function Scrubbed(db: Db, home: Id): Db
  {
    db.(records := set r | r in db.records && !(r.household == home && !r.kind.OtherKind?))
  }

  const ALL_STEPS := 7

  /** The state after the first `n` of the seven steps; the selection is fixed before the first. */
  function Prefix(db: Db, config: Config, n: nat): Db
  {
    if n == 0 then db
    else if n == 1 then UserEnsured(db, config)
    else if n == 2 then HomeEnsured(UserEnsured(db, config), config)
    else if n == 3 then Ensured(db, config)
    else
      var moved := Moved(Ensured(db, config), HasFlagged(db.recipes), config);
      if n == 4 then moved
      else if n == 5 then UsersDropped(moved, config.bot)
      else if n == 6 then HouseholdsDropped(UsersDropped(moved, config.bot), config.home)
      else Scrubbed(HouseholdsDropped(UsersDropped(moved, config.bot), config.home), config.home)
  }

  /** How the program ends: the guard refuses, there is no catalog, it only reports, it fails, or it is done. */
  datatype Outcome = Refused | NoCatalog | DryRun | Conflict | Done

  function Ends(db: Db, config: Config, requested: bool, allowed: bool): Outcome
  {
    if requested && !allowed then Refused
    else if !HasFlagged(db.recipes) && !HasLegacy(db.recipes, config.home) then NoCatalog
    else if !allowed then DryRun
    else if SubTaken(db, config) then Conflict
    else Done
  }

  /**
    The decision, read off the arguments and the database: the reset is done if and only if it is asked for and
    allowed, there is a catalog, and the bot can sign in; and which outcome each hindrance gives.
  */
  lemma EndsExactly(db: Db, config: Config, requested: bool, allowed: bool)
    requires allowed ==> requested
    ensures Ends(db, config, requested, allowed).Done? <==>
            && allowed && CatalogExists(db, config)
            && (config.bot in db.users || forall u | u in db.users :: db.users[u].googleId != Some(config.legacySub))
    ensures Ends(db, config, requested, allowed).Refused? <==> requested && !allowed
    ensures Ends(db, config, requested, allowed).NoCatalog? <==> requested == allowed && !CatalogExists(db, config)
    ensures Ends(db, config, requested, allowed).DryRun? <==> !requested && CatalogExists(db, config)
    ensures Ends(db, config, requested, allowed).Conflict? <==>
            && allowed && CatalogExists(db, config)
            && config.bot !in db.users && exists u | u in db.users :: db.users[u].googleId == Some(config.legacySub)
  {
    CatalogIsFound(db, config);
  }

  /** The two counts find a catalog if and only if there is one. */
  lemma CatalogIsFound(db: Db, config: Config)
    ensures HasFlagged(db.recipes) || HasLegacy(db.recipes, config.home) <==> CatalogExists(db, config)
  {
    if r :| r in db.recipes && db.recipes[r].isCatalog {
      assert Selected(db, config, r);
    } else if r :| r in db.recipes && db.recipes[r].household == config.home {
      assert Selected(db, config, r);
    }
    if id :| Selected(db, config, id) { assert HasFlagged(db.recipes) || HasLegacy(db.recipes, config.home); }
  }

  // ----- the script as code -----

  class ResetScript {
    const config: Config
    var users: map<Id, User>
    var households: map<Id, Household>
    var memberships: map<Membership, Role>
    var recipes: map<Id, Recipe>
    var lines: set<Line>
    var records: set<Record>

    constructor (config: Config, db: Db)
      ensures this.config == config && State() == db
    {
      this.config := config;
      users, households, memberships := db.users, db.households, db.memberships;
      recipes, lines, records := db.recipes, db.lines, db.records;
    }

    ghost function State(): Db
      reads this
    {
      Db(users, households, memberships, recipes, lines, records)
    }

    method EnsureCatalogContext() returns (ok: bool)
      modifies this
      ensures ok == !SubTaken(old(State()), config)
      ensures State() == if ok then Ensured(old(State()), config) else old(State())
    {
      if config.bot !in users && exists u | u in users :: users[u].googleId == Some(config.legacySub) {
        return false;
      }
      users := users[config.bot := BotUser(users, config)];
      if config.home !in households {
        households := households[config.home := Household(config.homeName, Some(config.bot))];
      }
      memberships := memberships[Membership(config.bot, config.home) := Owner];
      ok := true;
    }

    method MoveCatalog(flagged: bool)
      modifies this
      ensures State() == Moved(old(State()), flagged, config)
    {
      recipes := map r | r in recipes :: MovedRecipe(recipes[r], flagged, config);
    }

    method DeleteOtherUsers()
      modifies this
      ensures State() == UsersDropped(old(State()), config.bot)
    {
      users := map u | u in users && u == config.bot :: users[u];
      households := map h | h in households :: Orphaned(households[h], config.bot);
      memberships := map m | m in memberships && m.user == config.bot :: memberships[m];
      recipes := map r | r in recipes && recipes[r].author == config.bot :: recipes[r];
      lines := LinesOf(lines, recipes);
    }

    method DeleteOtherHouseholds()
      modifies this
      ensures State() == HouseholdsDropped(old(State()), config.home)
    {
      households := map h | h in households && h == config.home :: households[h];
      memberships := map m | m in memberships && m.household == config.home :: memberships[m];
      recipes := map r | r in recipes && recipes[r].household == config.home :: recipes[r];
      lines := LinesOf(lines, recipes);
      records := set r | r in records && r.household == config.home;
    }

    method ScrubCatalogHousehold()
      modifies this
      ensures State() == Scrubbed(old(State()), config.home)
    {
      records := set r | r in records && !(r.household == config.home && !r.kind.OtherKind?);
    }

    /**
      A run that is not allowed, finds no catalog or finds the bot's sign-in name taken changes nothing, and says
      so; any other takes all seven steps.
    */
    method Run(requested: bool, allowed: bool) returns (outcome: Outcome)
      requires allowed ==> requested
      modifies this
      ensures outcome == Ends(old(State()), config, requested, allowed)
      ensures State() == if outcome.Done? then Prefix(old(State()), config, ALL_STEPS) else old(State())
      ensures !allowed ==> State() == old(State()) && outcome != Done
      ensures !CatalogExists(old(State()), config) ==> State() == old(State()) && outcome in {Refused, NoCatalog}
      ensures config.bot !in old(users) && (exists u | u in old(users) :: old(users)[u].googleId == Some(config.legacySub)) ==>
                State() == old(State()) && outcome != Done
    {
      EndsExactly(State(), config, requested, allowed);
      if requested && !allowed { return Refused; }
      var flagged := HasFlagged(recipes);
      if !flagged && !HasLegacy(recipes, config.home) { return NoCatalog; }
      if !allowed { return DryRun; }
      var ok := EnsureCatalogContext();
      if !ok { return Conflict; }
      MoveCatalog(flagged);
      DeleteOtherUsers();
      DeleteOtherHouseholds();
      ScrubCatalogHousehold();
      return Done;
    }
  }

  // ----- the catalog is conserved -----

  /** A recipe's content and its ingredient rows are the same in both states. */
  ghost predicate Conserved(before: Db, after: Db, id: Id)
  {
    && id in before.recipes && id in after.recipes
    && after.recipes[id].content == before.recipes[id].content
    && (forall line: Line | line.recipe == id :: line in after.lines <==> line in before.lines)
  }

  /** After any number of the steps, every recipe selected as catalog is there with its content and rows. */
  lemma CatalogConservedByEveryPrefix(db: Db, config: Config, n: nat, id: Id)
    requires Selected(db, config, id)
    ensures Conserved(db, Prefix(db, config, n), id)
    ensures n >= 4 ==> Prefix(db, config, n).recipes[id] == Recipe(config.bot, config.home, true, db.recipes[id].content)
  {
    var moved := Moved(Ensured(db, config), HasFlagged(db.recipes), config);
    assert moved.recipes[id] == Recipe(config.bot, config.home, true, db.recipes[id].content);
  }

  lemma CompletedAccounts(db: Db, config: Config)
    ensures OnlyBotAndHome(db, Prefix(db, config, ALL_STEPS), config)
  {
    CompletedIsEnd(db, config);
  }

  /** The rows a completed run leaves: one user, one household and one membership, each as the script writes it. */
  ghost predicate OnlyBotAndHome(db: Db, after: Db, config: Config)
  {
    && after.users.Keys == {config.bot}
    && after.users[config.bot]
       == User(if config.bot in db.users then db.users[config.bot].googleId else Some(config.legacySub),
               config.botName, Some(config.botEmail))
    && after.households.Keys == {config.home}
    && after.households[config.home].name
       == (if config.home in db.households then db.households[config.home].name else config.homeName)
    && (after.households[config.home].createdBy == Some(config.bot) <==>
         config.home !in db.households || db.households[config.home].createdBy == Some(config.bot))
    && (after.households[config.home].createdBy == Some(config.bot) || after.households[config.home].createdBy.None?)
    && after.memberships == map[Membership(config.bot, config.home) := Owner]
  }

  /** The recipes it leaves: the catalog, flagged, and what else was the bot's in its household, as it was. */
  ghost predicate OnlyCatalog(db: Db, after: Db, config: Config)
  {
    && (forall r :: r in after.recipes <==>
         Selected(db, config, r)
         || (r in db.recipes && db.recipes[r].author == config.bot && db.recipes[r].household == config.home))
    && (forall r | r in after.recipes ::
         after.recipes[r] == Recipe(config.bot, config.home, Selected(db, config, r), db.recipes[r].content))
    && (forall l :: l in after.lines <==> l in db.lines && l.recipe in after.recipes)
    && (forall r :: r in after.records <==> r in db.records && r.household == config.home && r.kind.OtherKind?)
  }

  /** After a completed run on a database whose foreign keys hold, they hold still, and exactly this is left. */
  lemma CompletedReset(db: Db, config: Config)
    requires Integrity(db)
    ensures var after := Prefix(db, config, ALL_STEPS);
      Integrity(after) && OnlyBotAndHome(db, after, config) && OnlyCatalog(db, after, config)
  {
    CompletedAccounts(db, config);
    CompletedContents(db, config);
  }

  lemma CompletedContents(db: Db, config: Config)
    ensures OnlyCatalog(db, Prefix(db, config, ALL_STEPS), config)
  {
    var after := Prefix(db, config, ALL_STEPS);
    CompletedIsEnd(db, config);
    forall r ensures r in after.recipes <==>
        Selected(db, config, r)
        || (r in db.recipes && db.recipes[r].author == config.bot && db.recipes[r].household == config.home)
      ensures r in after.recipes ==>
        after.recipes[r] == Recipe(config.bot, config.home, Selected(db, config, r), db.recipes[r].content)
    {
      assert r in db.recipes ==> (Selected(db, config, r) <==> CatalogWhere(HasFlagged(db.recipes), config.home, db.recipes[r]));
    }
  }

  // ----- a cut run can be repeated -----

  lemma FlaggedAfterMove(db: Db, config: Config, n: nat)
    requires n >= 4 && CatalogExists(db, config)
    ensures HasFlagged(Prefix(db, config, n).recipes)
  {
    var id :| Selected(db, config, id);
    CatalogConservedByEveryPrefix(db, config, n, id);
    assert Prefix(db, config, n).recipes[id].isCatalog;
  }

  /** After any number of the steps, a new run selects exactly the recipes the first one did. */
  lemma SelectionSurvivesCut(db: Db, config: Config, n: nat, id: Id)
    requires CatalogExists(db, config)
    ensures Selected(Prefix(db, config, n), config, id) <==> Selected(db, config, id)
  {
    var cut := Prefix(db, config, n);
    if n >= 4 {
      FlaggedAfterMove(db, config, n);
      var moved := Moved(Ensured(db, config), HasFlagged(db.recipes), config);
      if Selected(db, config, id) {
        CatalogConservedByEveryPrefix(db, config, n, id);
      } else if id in cut.recipes {
        assert cut.recipes[id] == moved.recipes[id] == MovedRecipe(db.recipes[id], HasFlagged(db.recipes), config);
        assert !cut.recipes[id].isCatalog;
      }
    }
  }

  /** The recipes a completed run leaves, each as it leaves it. */
  function EndRecipes(recipes: map<Id, Recipe>, flagged: bool, config: Config): map<Id, Recipe>
  {
    map r | r in recipes && MovedRecipe(recipes[r], flagged, config).author == config.bot
            && MovedRecipe(recipes[r], flagged, config).household == config.home
      :: MovedRecipe(recipes[r], flagged, config)
  }

  function EndHome(households: map<Id, Household>, config: Config): Household
  {
    if config.home in households then Orphaned(households[config.home], config.bot)
    else Household(config.homeName, Some(config.bot))
  }

  /** The state a completed run leaves, field by field. */
  function EndState(db: Db, flagged: bool, config: Config): Db
  {
    var recipes := EndRecipes(db.recipes, flagged, config);
    Db(map[config.bot := BotUser(db.users, config)],
       map[config.home := EndHome(db.households, config)],
       map[Membership(config.bot, config.home) := Owner],
       recipes,
       LinesOf(db.lines, recipes),
       set r | r in db.records && r.household == config.home && r.kind.OtherKind?)
  }

  lemma CompletedIsEndRecipes(db: Db, config: Config)
    ensures Prefix(db, config, ALL_STEPS).recipes == EndRecipes(db.recipes, HasFlagged(db.recipes), config)
  {
  }

  lemma CompletedIsEndLines(db: Db, config: Config)
    ensures Prefix(db, config, ALL_STEPS).lines == LinesOf(db.lines, Prefix(db, config, ALL_STEPS).recipes)
  {
  }

  lemma CompletedIsEndHouseholds(db: Db, config: Config)
    ensures Prefix(db, config, ALL_STEPS).households == map[config.home := EndHome(db.households, config)]
  {
  }

  lemma CompletedIsEnd(db: Db, config: Config)
    ensures Prefix(db, config, ALL_STEPS) == EndState(db, HasFlagged(db.recipes), config)
  {
    CompletedIsEndRecipes(db, config);
    CompletedIsEndLines(db, config);
    CompletedIsEndHouseholds(db, config);
    CompletedIsEndUsers(db, config);
    CompletedIsEndMemberships(db, config);
    CompletedIsEndRecords(db, config);
  }

  lemma CompletedIsEndUsers(db: Db, config: Config)
    ensures Prefix(db, config, ALL_STEPS).users == map[config.bot := BotUser(db.users, config)]
  {
  }

  lemma CompletedIsEndMemberships(db: Db, config: Config)
    ensures Prefix(db, config, ALL_STEPS).memberships == map[Membership(config.bot, config.home) := Owner]
  {
  }

  lemma CompletedIsEndRecords(db: Db, config: Config)
    ensures Prefix(db, config, ALL_STEPS).records == set r | r in db.records && r.household == config.home && r.kind.OtherKind?
  {
  }

  lemma UserEndsAlike(db: Db, flagged: bool, config: Config)
    ensures EndState(UserEnsured(db, config), flagged, config) == EndState(db, flagged, config)
  {
  }

  lemma HomeEndsAlike(db: Db, flagged: bool, config: Config)
    ensures EndState(HomeEnsured(UserEnsured(db, config), config), flagged, config) == EndState(db, flagged, config)
  {
  }

  lemma EnsuredEndsAlike(db: Db, flagged: bool, config: Config)
    ensures EndState(Ensured(db, config), flagged, config) == EndState(db, flagged, config)
  {
  }

  lemma MovedEndsAlike(db: Db, flagged: bool, config: Config)
    requires flagged == HasFlagged(db.recipes)
    ensures EndState(Moved(db, flagged, config), true, config) == EndState(db, flagged, config)
  {
    assert EndRecipes(Moved(db, flagged, config).recipes, true, config) == EndRecipes(db.recipes, flagged, config);
  }

  /** The recipes that are flagged are where the reset puts them. */
  ghost predicate InPlace(recipes: map<Id, Recipe>, config: Config)
  {
    forall r | r in recipes && recipes[r].isCatalog :: recipes[r].author == config.bot && recipes[r].household == config.home
  }

  /** Fewer recipes, but none less of those in place for good. */
  lemma FewerEndAlike(lines: set<Line>, a: map<Id, Recipe>, b: map<Id, Recipe>, config: Config)
    requires InPlace(a, config) && forall r | r in b :: r in a && b[r] == a[r]
    requires forall r | r in a && a[r].author == config.bot && a[r].household == config.home :: r in b
    ensures InPlace(b, config) && EndRecipes(b, true, config) == EndRecipes(a, true, config)
    ensures LinesOf(LinesOf(lines, b), EndRecipes(b, true, config)) == LinesOf(lines, EndRecipes(a, true, config))
  {
  }

  lemma UsersDroppedEndsAlike(db: Db, config: Config)
    requires InPlace(db.recipes, config) && config.bot in db.users
    ensures InPlace(UsersDropped(db, config.bot).recipes, config)
    ensures EndState(UsersDropped(db, config.bot), true, config) == EndState(db, true, config)
  {
    FewerEndAlike(db.lines, db.recipes, UsersDropped(db, config.bot).recipes, config);
  }

  lemma HouseholdsDroppedEndsAlike(db: Db, config: Config)
    requires InPlace(db.recipes, config) && config.home in db.households
    ensures InPlace(HouseholdsDropped(db, config.home).recipes, config)
    ensures EndState(HouseholdsDropped(db, config.home), true, config) == EndState(db, true, config)
  {
    FewerEndAlike(db.lines, db.recipes, HouseholdsDropped(db, config.home).recipes, config);
  }

  lemma EarlyCutEndsAlike(db: Db, config: Config, n: nat)
    requires n <= 4
    ensures EndState(Prefix(db, config, n), n == 4 || HasFlagged(db.recipes), config)
            == EndState(db, HasFlagged(db.recipes), config)
  {
    var flagged := HasFlagged(db.recipes);
    if n == 1 { UserEndsAlike(db, flagged, config); }
    if n == 2 { HomeEndsAlike(db, flagged, config); }
    if n >= 3 { EnsuredEndsAlike(db, flagged, config); }
    if n == 4 { MovedEndsAlike(Ensured(db, config), flagged, config); }
  }

  /** A cut run ends where the whole run ends. */
  lemma CutEndsAlike(db: Db, config: Config, n: nat)
    ensures EndState(Prefix(db, config, n), n >= 4 || HasFlagged(db.recipes), config)
            == EndState(db, HasFlagged(db.recipes), config)
  {
    EarlyCutEndsAlike(db, config, if n < 4 then n else 4);
    if n >= 5 { UsersDroppedEndsAlike(Prefix(db, config, 4), config); }
    if n >= 6 { HouseholdsDroppedEndsAlike(Prefix(db, config, 5), config); }
    if n >= 7 { ScrubbedEndsAlike(Prefix(db, config, 6), config); }
  }

  lemma ScrubbedEndsAlike(db: Db, config: Config)
    ensures EndState(Scrubbed(db, config.home), true, config) == EndState(db, true, config)
  {
  }

  /**
    A run cut between any two steps and then repeated to the end: the repetition is not stopped for want of
    a catalog or by the taken sign-in name, and ends in the very state of a run that was not cut.
  */
  lemma CutRunIsRepaired(db: Db, config: Config, n: nat)
    requires Ends(db, config, true, true).Done?
    ensures Ends(Prefix(db, config, n), config, true, true).Done?
    ensures Prefix(Prefix(db, config, n), config, ALL_STEPS) == Prefix(db, config, ALL_STEPS)
    ensures forall id | Selected(db, config, id) :: Conserved(db, Prefix(Prefix(db, config, n), config, ALL_STEPS), id)
  {
    var cut := Prefix(db, config, n);
    CatalogIsFound(db, config);
    if n >= 4 { FlaggedAfterMove(db, config, n); }
    CutEndsAlike(db, config, n);
    CompletedIsEnd(db, config);
    CompletedIsEnd(cut, config);
    CutIsNotStopped(db, config, n);
    forall id | Selected(db, config, id) ensures Conserved(db, Prefix(db, config, ALL_STEPS), id) {
      CatalogConservedByEveryPrefix(db, config, 5, id);
    }
  }

  lemma CutIsNotStopped(db: Db, config: Config, n: nat)
    requires Ends(db, config, true, true).Done?
    ensures Ends(Prefix(db, config, n), config, true, true).Done?
  {
    CatalogIsFound(db, config);
    if n >= 4 { FlaggedAfterMove(db, config, n); }
  }
}
