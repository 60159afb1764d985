/** The usage report: costs accumulated per model, per turn and per household in three loops over a ledger. */
module UsageReport {
  import opened Counting
  import opened Options
  import opened Sequences

  datatype Row = Row(
    turn: Option<string>,
    household: Option<string>,
    model: string,
    inputTokens: nat,
    cacheReadTokens: nat,
    cacheWriteTokens: nat,
    outputTokens: nat,
    cost: nat,
    apiCalls: Option<nat>)

  datatype ModelTotals = ModelTotals(calls: nat, cost: nat, inp: nat, cacheRead: nat, cacheWrite: nat, out: nat)

  /** `apiCalls` is absent when some row of the turn does not know its number. */
  datatype TurnTotals = TurnTotals(cost: nat, rows: nat, apiCalls: Option<nat>, household: Option<string>)

  datatype HouseholdTotals = HouseholdTotals(cost: nat, turns: nat)

  function Shown(household: Option<string>): string
  {
    if household.Some? then household.value else "-"
  }

  /** Rows without a turn are put together by household. */
  function TurnKey(row: Row): string
  {
    if row.turn.Some? then row.turn.value else "bez-tury:" + Shown(row.household)
  }

  /** One turn: the same, or none and the same household; or a turn that is called like the one of no turn. */
  predicate Together(a: Row, b: Row)
  {
    match (a.turn, b.turn)
    case (Some(x), Some(y)) => x == y
    case (None, None) => Shown(a.household) == Shown(b.household)
    case (Some(x), None) => x == "bez-tury:" + Shown(b.household)
    case (None, Some(y)) => y == "bez-tury:" + Shown(a.household)
  }

  lemma TogetherExactly(a: Row, b: Row)
    ensures TurnKey(a) == TurnKey(b) <==> Together(a, b)
  {
    var prefix := "bez-tury:";
    assert (prefix + Shown(a.household))[|prefix|..] == Shown(a.household);
    assert (prefix + Shown(b.household))[|prefix|..] == Shown(b.household);
  }

  // ----- what one row adds -----

  function AddToModel(m: ModelTotals, r: Row): ModelTotals
  {
    ModelTotals(m.calls + 1, m.cost + r.cost, m.inp + r.inputTokens, m.cacheRead + r.cacheReadTokens,
                m.cacheWrite + r.cacheWriteTokens, m.out + r.outputTokens)
  }

  function AddToTurn(t: TurnTotals, r: Row): TurnTotals
  {
    TurnTotals(t.cost + r.cost, t.rows + 1,
               if t.apiCalls.None? || r.apiCalls.None? then None else Some(t.apiCalls.value + r.apiCalls.value),
               t.household)
  }

  /** A map filled in a loop keeps its keys in the order of their first use. */
  datatype Table<V> = Table(order: seq<string>, cells: map<string, V>)

  function Put<V>(t: Table<V>, key: string, value: V): Table<V>
  {
    Table(if key in t.cells then t.order else t.order + [key], t.cells[key := value])
  }

  ghost predicate Lists<V>(t: Table<V>)
  {
    && (forall key :: key in t.order <==> key in t.cells)
    && (forall i, j | 0 <= i < j < |t.order| :: t.order[i] != t.order[j])
  }

  // ----- what the tables are to hold -----

  function ModelOf(rows: seq<Row>, model: string): ModelTotals
  {
    if rows == [] then ModelTotals(0, 0, 0, 0, 0, 0)
    else
      var rest := ModelOf(rows[..|rows| - 1], model);
      if rows[|rows| - 1].model == model then AddToModel(rest, rows[|rows| - 1]) else rest
  }

  predicate HasModel(rows: seq<Row>, model: string)
  {
    exists i | 0 <= i < |rows| :: rows[i].model == model
  }

  /** The rows of one turn, in order. */
  function RowsOf(rows: seq<Row>, key: string): seq<Row>
  {
    if rows == [] then []
    else
      RowsOf(rows[..|rows| - 1], key) + (if TurnKey(rows[|rows| - 1]) == key then [rows[|rows| - 1]] else [])
  }

  function Cost(rows: seq<Row>): nat
  {
    if rows == [] then 0 else Cost(rows[..|rows| - 1]) + rows[|rows| - 1].cost
  }

  function Calls(rows: seq<Row>): nat
  {
    if rows == [] then 0
    else
      Calls(rows[..|rows| - 1])
      + (if rows[|rows| - 1].apiCalls.Some? then rows[|rows| - 1].apiCalls.value else 0)
  }

  /** What the turn's entry says about the rows of that turn; the household is the first row's. */
  predicate IsTurn(own: seq<Row>, t: TurnTotals)
  {
    && own != []
    && t.cost == Cost(own)
    && t.rows == |own|
    && (t.apiCalls.None? <==> exists i | 0 <= i < |own| :: own[i].apiCalls.None?)
    && (t.apiCalls.Some? ==> t.apiCalls.value == Calls(own))
    && t.household == own[0].household
  }

  ghost predicate IsModelTable(t: Table<ModelTotals>, rows: seq<Row>)
  {
    && Lists(t)
    && (forall model :: model in t.cells <==> HasModel(rows, model))
    && (forall model | model in t.cells :: t.cells[model] == ModelOf(rows, model))
  }

  ghost predicate IsTurnTable(t: Table<TurnTotals>, rows: seq<Row>)
  {
    && Lists(t)
    && (forall key :: key in t.cells <==> RowsOf(rows, key) != [])
    && (forall key | key in t.cells :: IsTurn(RowsOf(rows, key), t.cells[key]))
  }

  /** A household has a cell exactly when some turn is its own. */
  ghost predicate IsHouseholdTable(t: Table<HouseholdTotals>, turns: seq<TurnTotals>)
  {
    && Lists(t)
    && (forall key :: key in t.cells <==> HouseholdOf(turns, key).turns > 0)
    && (forall key | key in t.cells :: t.cells[key] == HouseholdOf(turns, key))
  }

  lemma {:induction false} OwnRows(rows: seq<Row>, key: string, row: Row)
    ensures row in RowsOf(rows, key) <==> row in rows && TurnKey(row) == key
  {
    if rows != [] {
      var n := |rows| - 1;
      OwnRows(rows[..n], key, row);
      assert rows == rows[..n] + [rows[n]];
    }
  }

  /** Two rows are counted in one cell exactly when they belong to one turn, or to none and to one household. */
  lemma OneCellExactly(t: Table<TurnTotals>, rows: seq<Row>, a: Row, b: Row)
    requires IsTurnTable(t, rows) && a in rows && b in rows
    ensures (exists key | key in t.cells :: a in RowsOf(rows, key) && b in RowsOf(rows, key)) <==> Together(a, b)
  {
    TogetherExactly(a, b);
    forall key ensures a in RowsOf(rows, key) <==> TurnKey(a) == key { OwnRows(rows, key, a); }
    forall key ensures b in RowsOf(rows, key) <==> TurnKey(b) == key { OwnRows(rows, key, b); }
    assert RowsOf(rows, TurnKey(a)) != [];
    assert TurnKey(a) in t.cells;
  }

  lemma PutLists<V>(t: Table<V>, key: string, value: V)
    requires Lists(t)
    ensures Lists(Put(t, key, value))
  {
    var out := Put(t, key, value);
    forall k ensures k in out.order <==> k in out.cells {
      assert k in t.order <==> k in t.cells;
    }
  }

  // ----- one more row -----

  function ModelCell(t: Table<ModelTotals>, model: string): ModelTotals
  {
    if model in t.cells then t.cells[model] else ModelTotals(0, 0, 0, 0, 0, 0)
  }

  function TurnCell(t: Table<TurnTotals>, r: Row): TurnTotals
  {
    if TurnKey(r) in t.cells then t.cells[TurnKey(r)] else TurnTotals(0, 0, Some(0), r.household)
  }

  function HouseholdCell(t: Table<HouseholdTotals>, key: string): HouseholdTotals
  {
    if key in t.cells then t.cells[key] else HouseholdTotals(0, 0)
  }

  function AddToHousehold(h: HouseholdTotals, turn: TurnTotals): HouseholdTotals
  {
    HouseholdTotals(h.cost + turn.cost, h.turns + 1)
  }

  lemma HasModelNext(rows: seq<Row>, r: Row, model: string)
    ensures HasModel(rows + [r], model) <==> HasModel(rows, model) || r.model == model
  {
    var longer := rows + [r];
    if HasModel(rows, model) {
      var i :| 0 <= i < |rows| && rows[i].model == model;
      assert longer[i].model == model;
    }
    if r.model == model { assert longer[|rows|].model == model; }
  }

  lemma {:induction false} NoModel(rows: seq<Row>, model: string)
    requires !HasModel(rows, model)
    ensures ModelOf(rows, model) == ModelTotals(0, 0, 0, 0, 0, 0)
  {
    if rows != [] {
      var n := |rows| - 1;
      LastSplit(rows);
      HasModelNext(rows[..n], rows[n], model);
      NoModel(rows[..n], model);
    }
  }

  lemma NextModel(t: Table<ModelTotals>, rows: seq<Row>, r: Row)
    requires IsModelTable(t, rows)
    ensures IsModelTable(WithModel(t, r), rows + [r])
  {
    var out, longer := Put(t, r.model, AddToModel(ModelCell(t, r.model), r)), rows + [r];
    assert longer[..|rows|] == rows;
    PutLists(t, r.model, AddToModel(ModelCell(t, r.model), r));
    if r.model !in t.cells { NoModel(rows, r.model); }
    forall model ensures model in out.cells <==> HasModel(longer, model) { HasModelNext(rows, r, model); }
  }

  lemma AddedRowIsTurn(own: seq<Row>, t: TurnTotals, r: Row)
    requires own == [] || IsTurn(own, t)
    requires own == [] ==> t == TurnTotals(0, 0, Some(0), r.household)
    ensures IsTurn(own + [r], AddToTurn(t, r))
  {
    var longer := own + [r];
    assert longer[..|own|] == own;
    if exists i | 0 <= i < |own| :: own[i].apiCalls.None? {
      var i :| 0 <= i < |own| && own[i].apiCalls.None?;
      assert longer[i].apiCalls.None?;
    }
    if r.apiCalls.None? { assert longer[|own|].apiCalls.None?; }
  }

  lemma RowsOfNext(rows: seq<Row>, r: Row, key: string)
    ensures RowsOf(rows + [r], key) == RowsOf(rows, key) + (if TurnKey(r) == key then [r] else [])
  {
    assert (rows + [r])[..|rows|] == rows;
  }

  lemma NextTurn(t: Table<TurnTotals>, rows: seq<Row>, r: Row)
    requires IsTurnTable(t, rows)
    ensures IsTurnTable(WithTurn(t, r), rows + [r])
  {
    var out := Put(t, TurnKey(r), AddToTurn(TurnCell(t, r), r));
    PutLists(t, TurnKey(r), AddToTurn(TurnCell(t, r), r));
    AddedRowIsTurn(RowsOf(rows, TurnKey(r)), TurnCell(t, r), r);
    forall key
      ensures key in out.cells <==> RowsOf(rows + [r], key) != []
      ensures key in out.cells ==> IsTurn(RowsOf(rows + [r], key), out.cells[key])
    {
      RowsOfNext(rows, r, key);
      if key != TurnKey(r) { assert RowsOf(rows, key) + [] == RowsOf(rows, key); }
    }
  }

  lemma {:induction false} HouseholdZero(turns: seq<TurnTotals>, key: string)
    ensures HouseholdOf(turns, key).turns == 0 ==> HouseholdOf(turns, key).cost == 0
  {
    if turns != [] { HouseholdZero(turns[..|turns| - 1], key); }
  }

  lemma NextHousehold(t: Table<HouseholdTotals>, turns: seq<TurnTotals>, turn: TurnTotals)
    requires IsHouseholdTable(t, turns)
    ensures IsHouseholdTable(WithHousehold(t, turn), turns + [turn])
  {
    var key := Shown(turn.household);
    assert (turns + [turn])[..|turns|] == turns;
    PutLists(t, key, AddToHousehold(HouseholdCell(t, key), turn));
    HouseholdZero(turns, key);
  }

  // ----- the loops -----

  function WithModel(t: Table<ModelTotals>, r: Row): Table<ModelTotals>
  {
    Put(t, r.model, AddToModel(ModelCell(t, r.model), r))
  }

  function WithTurn(t: Table<TurnTotals>, r: Row): Table<TurnTotals>
  {
    Put(t, TurnKey(r), AddToTurn(TurnCell(t, r), r))
  }

  function WithHousehold(t: Table<HouseholdTotals>, turn: TurnTotals): Table<HouseholdTotals>
  {
    var key := Shown(turn.household);
    Put(t, key, AddToHousehold(HouseholdCell(t, key), turn))
  }

  function ModelTable(rows: seq<Row>): Table<ModelTotals>
  {
    if rows == [] then Table([], map[]) else WithModel(ModelTable(rows[..|rows| - 1]), rows[|rows| - 1])
  }

  function TurnTable(rows: seq<Row>): Table<TurnTotals>
  {
    if rows == [] then Table([], map[]) else WithTurn(TurnTable(rows[..|rows| - 1]), rows[|rows| - 1])
  }

  function HouseholdTable(turns: seq<TurnTotals>): Table<HouseholdTotals>
  {
    if turns == [] then Table([], map[]) else WithHousehold(HouseholdTable(turns[..|turns| - 1]), turns[|turns| - 1])
  }

  method ByModel(rows: seq<Row>) returns (t: Table<ModelTotals>)
    ensures t == ModelTable(rows)
  {
    t := Table([], map[]);
    for i := 0 to |rows|
      invariant t == ModelTable(rows[..i])
    {
      assert rows[..i + 1][..i] == rows[..i];
      t := WithModel(t, rows[i]);
    }
    assert rows[..|rows|] == rows;
  }

  method ByTurn(rows: seq<Row>) returns (t: Table<TurnTotals>)
    ensures t == TurnTable(rows)
  {
    t := Table([], map[]);
    for i := 0 to |rows|
      invariant t == TurnTable(rows[..i])
    {
      assert rows[..i + 1][..i] == rows[..i];
      t := WithTurn(t, rows[i]);
    }
    assert rows[..|rows|] == rows;
  }

  method ByHousehold(turns: seq<TurnTotals>) returns (t: Table<HouseholdTotals>)
    ensures t == HouseholdTable(turns)
  {
    t := Table([], map[]);
    for i := 0 to |turns|
      invariant t == HouseholdTable(turns[..i])
    {
      assert turns[..i + 1][..i] == turns[..i];
      t := WithHousehold(t, turns[i]);
    }
    assert turns[..|turns|] == turns;
  }

  /** Every model that occurs has one cell, with the sums over exactly its rows. */
  lemma {:induction false} ModelTableHolds(rows: seq<Row>)
    ensures IsModelTable(ModelTable(rows), rows)
  {
    if rows != [] {
      var n := |rows| - 1;
      ModelTableHolds(rows[..n]);
      NextModel(ModelTable(rows[..n]), rows[..n], rows[n]);
      LastSplit(rows);
    }
  }

  /**
    Every turn has one cell, with its rows' cost and number; its call count is absent exactly when one of
    its rows does not know its own, and else their sum.
  */
  lemma {:induction false} TurnTableHolds(rows: seq<Row>)
    ensures IsTurnTable(TurnTable(rows), rows)
  {
    if rows != [] {
      var n := |rows| - 1;
      TurnTableHolds(rows[..n]);
      NextTurn(TurnTable(rows[..n]), rows[..n], rows[n]);
      LastSplit(rows);
    }
  }

  lemma {:induction false} HouseholdTableHolds(turns: seq<TurnTotals>)
    ensures IsHouseholdTable(HouseholdTable(turns), turns)
  {
    if turns != [] {
      var n := |turns| - 1;
      HouseholdTableHolds(turns[..n]);
      NextHousehold(HouseholdTable(turns[..n]), turns[..n], turns[n]);
      LastSplit(turns);
    }
  }

  function HouseholdOf(turns: seq<TurnTotals>, key: string): HouseholdTotals
  {
    if turns == [] then HouseholdTotals(0, 0)
    else
      var rest, last := HouseholdOf(turns[..|turns| - 1], key), turns[|turns| - 1];
      if Shown(last.household) == key then HouseholdTotals(rest.cost + last.cost, rest.turns + 1) else rest
  }

  // ----- the sums, each over its own column -----

  function OfModel(model: string, column: Row -> nat): Row -> nat
  {
    (r: Row) => if r.model == model then column(r) else 0
  }

  lemma {:induction false} ModelColumn(rows: seq<Row>, model: string, column: Row -> nat, cell: ModelTotals -> nat)
    requires cell(ModelTotals(0, 0, 0, 0, 0, 0)) == 0 && forall m, r :: cell(AddToModel(m, r)) == cell(m) + column(r)
    ensures cell(ModelOf(rows, model)) == Sum(rows, OfModel(model, column))
  {
    if rows != [] {
      ModelColumn(rows[..|rows| - 1], model, column, cell);
      SumLast(rows, OfModel(model, column));
    }
  }

  /** Each number of a model's cell is the sum of its own column over the model's rows. */
  lemma ModelSums(rows: seq<Row>, model: string)
    ensures ModelOf(rows, model) == ModelTotals(
              Sum(rows, OfModel(model, (r: Row) => 1)), Sum(rows, OfModel(model, (r: Row) => r.cost)),
              Sum(rows, OfModel(model, (r: Row) => r.inputTokens)), Sum(rows, OfModel(model, (r: Row) => r.cacheReadTokens)),
              Sum(rows, OfModel(model, (r: Row) => r.cacheWriteTokens)), Sum(rows, OfModel(model, (r: Row) => r.outputTokens)))
  {
    ModelColumn(rows, model, (r: Row) => 1, (m: ModelTotals) => m.calls);
    ModelColumn(rows, model, (r: Row) => r.cost, (m: ModelTotals) => m.cost);
    ModelColumn(rows, model, (r: Row) => r.inputTokens, (m: ModelTotals) => m.inp);
    ModelColumn(rows, model, (r: Row) => r.cacheReadTokens, (m: ModelTotals) => m.cacheRead);
    ModelColumn(rows, model, (r: Row) => r.cacheWriteTokens, (m: ModelTotals) => m.cacheWrite);
    ModelColumn(rows, model, (r: Row) => r.outputTokens, (m: ModelTotals) => m.out);
  }

  function CallsOf(r: Row): nat
  {
    if r.apiCalls.Some? then r.apiCalls.value else 0
  }

  /** So are the numbers of a turn. */
  lemma {:induction false} TurnSums(own: seq<Row>)
    ensures Cost(own) == Sum(own, (r: Row) => r.cost) && Calls(own) == Sum(own, CallsOf)
  {
    if own != [] {
      TurnSums(own[..|own| - 1]);
      SumLast(own, (r: Row) => r.cost);
      SumLast(own, CallsOf);
    }
  }

  function OfHousehold(key: string, column: TurnTotals -> nat): TurnTotals -> nat
  {
    (t: TurnTotals) => if Shown(t.household) == key then column(t) else 0
  }

  /** And those of a household. */
  lemma {:induction false} HouseholdSums(turns: seq<TurnTotals>, key: string)
    ensures HouseholdOf(turns, key)
            == HouseholdTotals(Sum(turns, OfHousehold(key, (t: TurnTotals) => t.cost)), Sum(turns, OfHousehold(key, (t: TurnTotals) => 1)))
  {
    if turns != [] {
      HouseholdSums(turns[..|turns| - 1], key);
      SumLast(turns, OfHousehold(key, (t: TurnTotals) => t.cost));
      SumLast(turns, OfHousehold(key, (t: TurnTotals) => 1));
    }
  }

  /** The turns in the order of the table, as the household loop meets them. */
  function TurnList(t: Table<TurnTotals>): (list: seq<TurnTotals>)
    requires Lists(t)
    ensures |list| == |t.order| && forall i | 0 <= i < |list| :: list[i] == t.cells[t.order[i]]
  {
    seq(|t.order|, i requires 0 <= i < |t.order| => t.cells[t.order[i]])
  }

  // ----- every sum is the whole sum -----

  function SumModels(rows: seq<Row>, order: seq<string>): nat
  {
    if order == [] then 0 else ModelOf(rows, order[0]).cost + SumModels(rows, order[1..])
  }

  function SumTurns(rows: seq<Row>, order: seq<string>): nat
  {
    if order == [] then 0 else Cost(RowsOf(rows, order[0])) + SumTurns(rows, order[1..])
  }

  function SumHouseholds(turns: seq<TurnTotals>, order: seq<string>): nat
  {
    if order == [] then 0 else HouseholdOf(turns, order[0]).cost + SumHouseholds(turns, order[1..])
  }

  function CostOfTurns(turns: seq<TurnTotals>): nat
  {
    if turns == [] then 0 else CostOfTurns(turns[..|turns| - 1]) + turns[|turns| - 1].cost
  }

  predicate Distinct(order: seq<string>)
  {
    forall i, j | 0 <= i < j < |order| :: order[i] != order[j]
  }

  lemma {:induction false} DistinctTimes(order: seq<string>, key: string)
    requires Distinct(order)
    ensures Times(order, key) == One(key in order)
  {
    if order != [] {
      DistinctTimes(order[1..], key);
      if order[0] == key { assert key !in order[1..]; }
    }
  }

  /** One more row adds its cost to the sum as often as its key is listed. */
  lemma {:induction false} SumModelsNext(rows: seq<Row>, r: Row, order: seq<string>)
    ensures SumModels(rows + [r], order) == SumModels(rows, order) + r.cost * Times(order, r.model)
  {
    if order != [] {
      SumModelsNext(rows, r, order[1..]);
      ModelOfNext(rows, r, order[0]);
      Distribute(r.cost, One(order[0] == r.model), Times(order[1..], r.model));
    }
  }

  lemma ModelOfNext(rows: seq<Row>, r: Row, model: string)
    ensures ModelOf(rows + [r], model).cost == ModelOf(rows, model).cost + (if model == r.model then r.cost else 0)
  {
    assert (rows + [r])[..|rows|] == rows;
  }

  lemma CostNext(own: seq<Row>, r: Row)
    ensures Cost(own + [r]) == Cost(own) + r.cost && own + [] == own
  {
    assert (own + [r])[..|own|] == own;
  }

  lemma Distribute(a: int, b: int, c: int)
    ensures a * (b + c) == a * b + a * c
  {
  }

  lemma TurnCostNext(rows: seq<Row>, r: Row, key: string)
    ensures Cost(RowsOf(rows + [r], key)) == Cost(RowsOf(rows, key)) + r.cost * One(key == TurnKey(r))
  {
    RowsOfNext(rows, r, key);
    CostNext(RowsOf(rows, key), r);
  }

  lemma {:induction false} SumTurnsNext(rows: seq<Row>, r: Row, order: seq<string>)
    ensures SumTurns(rows + [r], order) == SumTurns(rows, order) + r.cost * Times(order, TurnKey(r))
  {
    if order != [] {
      var key, longer := TurnKey(r), rows + [r];
      calc {
        SumTurns(longer, order);
        Cost(RowsOf(longer, order[0])) + SumTurns(longer, order[1..]);
        { TurnCostNext(rows, r, order[0]); SumTurnsNext(rows, r, order[1..]); }
        SumTurns(rows, order) + r.cost * One(order[0] == key) + r.cost * Times(order[1..], key);
        { Distribute(r.cost, One(order[0] == key), Times(order[1..], key)); }
        SumTurns(rows, order) + r.cost * Times(order, key);
      }
    }
  }

  lemma {:induction false} SumHouseholdsNext(turns: seq<TurnTotals>, t: TurnTotals, order: seq<string>)
    ensures SumHouseholds(turns + [t], order) == SumHouseholds(turns, order) + t.cost * Times(order, Shown(t.household))
  {
    if order != [] {
      SumHouseholdsNext(turns, t, order[1..]);
      HouseholdOfNext(turns, t, order[0]);
      Distribute(t.cost, One(order[0] == Shown(t.household)), Times(order[1..], Shown(t.household)));
    }
  }

  lemma HouseholdOfNext(turns: seq<TurnTotals>, t: TurnTotals, key: string)
    ensures HouseholdOf(turns + [t], key).cost
            == HouseholdOf(turns, key).cost + (if key == Shown(t.household) then t.cost else 0)
  {
    assert (turns + [t])[..|turns|] == turns;
  }

  lemma {:induction false} NothingSums(order: seq<string>)
    ensures SumModels([], order) == SumTurns([], order) == SumHouseholds([], order) == 0
  {
    if order != [] { NothingSums(order[1..]); }
  }

  lemma {:induction false} ModelSum(rows: seq<Row>, order: seq<string>)
    requires Distinct(order) && forall i | 0 <= i < |rows| :: rows[i].model in order
    ensures SumModels(rows, order) == Cost(rows)
  {
    if rows == [] {
      NothingSums(order);
    } else {
      var n := |rows| - 1;
      ModelSum(rows[..n], order);
      SumModelsNext(rows[..n], rows[n], order);
      DistinctTimes(order, rows[n].model);
      LastSplit(rows);
    }
  }

  lemma {:induction false} TurnSum(rows: seq<Row>, order: seq<string>)
    requires Distinct(order) && forall i | 0 <= i < |rows| :: TurnKey(rows[i]) in order
    ensures SumTurns(rows, order) == Cost(rows)
  {
    if rows == [] {
      NothingSums(order);
    } else {
      var n := |rows| - 1;
      TurnSum(rows[..n], order);
      SumTurnsNext(rows[..n], rows[n], order);
      DistinctTimes(order, TurnKey(rows[n]));
      LastSplit(rows);
    }
  }

  lemma {:induction false} HouseholdSum(turns: seq<TurnTotals>, order: seq<string>)
    requires Distinct(order) && forall i | 0 <= i < |turns| :: Shown(turns[i].household) in order
    ensures SumHouseholds(turns, order) == CostOfTurns(turns)
  {
    if turns == [] {
      NothingSums(order);
    } else {
      var n := |turns| - 1;
      HouseholdSum(turns[..n], order);
      SumHouseholdsNext(turns[..n], turns[n], order);
      DistinctTimes(order, Shown(turns[n].household));
      LastSplit(turns);
    }
  }

  /** The turns, in the order of the table. */
  ghost predicate ListsTurns(list: seq<TurnTotals>, t: Table<TurnTotals>)
  {
    |list| == |t.order| && forall i | 0 <= i < |list| :: t.order[i] in t.cells && list[i] == t.cells[t.order[i]]
  }

  lemma {:induction false} TurnListCost(rows: seq<Row>, t: Table<TurnTotals>, list: seq<TurnTotals>, n: nat)
    requires ListsTurns(list, t) && n <= |list| && forall key | key in t.cells :: t.cells[key].cost == Cost(RowsOf(rows, key))
    ensures CostOfTurns(list[..n]) == SumTurnsTo(rows, t.order, n)
  {
    if n > 0 {
      TurnListCost(rows, t, list, n - 1);
      OneMoreCost(list, n);
    }
  }

  lemma OneMoreCost(turns: seq<TurnTotals>, n: nat)
    requires 0 < n <= |turns|
    ensures CostOfTurns(turns[..n]) == CostOfTurns(turns[..n - 1]) + turns[n - 1].cost
  {
    PrefixOfPrefix(turns, n);
  }

  function SumTurnsTo(rows: seq<Row>, order: seq<string>, n: nat): nat
    requires n <= |order|
  {
    if n == 0 then 0 else SumTurnsTo(rows, order, n - 1) + Cost(RowsOf(rows, order[n - 1]))
  }

  lemma {:induction false} SumTurnsBothWays(rows: seq<Row>, order: seq<string>)
    ensures SumTurnsTo(rows, order, |order|) == SumTurns(rows, order)
  {
    if order != [] {
      SumTurnsBothWays(rows, order[1..]);
      SumTurnsShift(rows, order, |order|);
    }
  }

  lemma {:induction false} SumTurnsShift(rows: seq<Row>, order: seq<string>, n: nat)
    requires 0 < n <= |order|
    ensures SumTurnsTo(rows, order, n) == Cost(RowsOf(rows, order[0])) + SumTurnsTo(rows, order[1..], n - 1)
  {
    if n > 1 { SumTurnsShift(rows, order, n - 1); }
  }

  lemma {:induction false} InRowsOf(rows: seq<Row>, i: nat)
    requires i < |rows|
    ensures RowsOf(rows, TurnKey(rows[i])) != []
  {
    if i < |rows| - 1 { InRowsOf(rows[..|rows| - 1], i); }
  }

  /**
    The whole report: the costs per model, per turn and per household each sum to the cost of all rows; a
    turn's number of calls is absent exactly when one of its rows does not know its own.
  */
  method Report(rows: seq<Row>)
    returns (models: Table<ModelTotals>, turns: Table<TurnTotals>, households: Table<HouseholdTotals>)
    ensures IsModelTable(models, rows) && IsTurnTable(turns, rows)
    ensures IsHouseholdTable(households, TurnList(turns))
    ensures SumModels(rows, models.order) == Cost(rows)
    ensures SumTurns(rows, turns.order) == Cost(rows)
    ensures SumHouseholds(TurnList(turns), households.order) == Cost(rows)
  {
    models := ByModel(rows);
    turns := ByTurn(rows);
    ModelTableHolds(rows);
    TurnTableHolds(rows);
    households := ByHousehold(TurnList(turns));
    HouseholdTableHolds(TurnList(turns));
    ModelsSumUp(rows, models);
    TurnsSumUp(rows, turns);
    HouseholdsSumUp(rows, turns, households);
  }

  lemma ModelsSumUp(rows: seq<Row>, models: Table<ModelTotals>)
    requires IsModelTable(models, rows)
    ensures SumModels(rows, models.order) == Cost(rows)
  {
    forall i | 0 <= i < |rows| ensures rows[i].model in models.order { assert HasModel(rows, rows[i].model); }
    ModelSum(rows, models.order);
  }

  lemma TurnsSumUp(rows: seq<Row>, turns: Table<TurnTotals>)
    requires IsTurnTable(turns, rows)
    ensures SumTurns(rows, turns.order) == Cost(rows)
  {
    forall i | 0 <= i < |rows| ensures TurnKey(rows[i]) in turns.order { InRowsOf(rows, i); }
    TurnSum(rows, turns.order);
  }

  lemma {:induction false} InHousehold(list: seq<TurnTotals>, i: nat)
    requires i < |list|
    ensures HouseholdOf(list, Shown(list[i].household)).turns > 0
  {
    if i < |list| - 1 { InHousehold(list[..|list| - 1], i); }
  }

  lemma HouseholdsSumUp(rows: seq<Row>, turns: Table<TurnTotals>, households: Table<HouseholdTotals>)
    requires IsTurnTable(turns, rows) && IsHouseholdTable(households, TurnList(turns))
    ensures SumHouseholds(TurnList(turns), households.order) == Cost(rows)
  {
    var list := TurnList(turns);
    HouseholdsCover(list, households);
    HouseholdSum(list, households.order);
    TurnsCost(rows, turns);
  }

  lemma TurnsCost(rows: seq<Row>, turns: Table<TurnTotals>)
    requires IsTurnTable(turns, rows)
    ensures CostOfTurns(TurnList(turns)) == Cost(rows)
  {
    var list := TurnList(turns);
    assert ListsTurns(list, turns);
    TurnListCost(rows, turns, list, |list|);
    assert list[..|list|] == list;
    SumTurnsBothWays(rows, turns.order);
    TurnsSumUp(rows, turns);
  }

  lemma HouseholdsCover(list: seq<TurnTotals>, households: Table<HouseholdTotals>)
    requires IsHouseholdTable(households, list)
    ensures Distinct(households.order) && forall i | 0 <= i < |list| :: Shown(list[i].household) in households.order
  {
    forall i | 0 <= i < |list| ensures Shown(list[i].household) in households.order { InHousehold(list, i); }
  }

  // ----- a household's cost, row by row -----

  /** The rows charged to one household. */
  function ChargedTo(rows: seq<Row>, household: string): seq<Row>
  {
    if rows == [] then []
    else
      ChargedTo(rows[..|rows| - 1], household)
      + (if Shown(rows[|rows| - 1].household) == household then [rows[|rows| - 1]] else [])
  }

  /** No turn has rows of two households. */
  predicate TurnsStayHome(rows: seq<Row>)
  {
    forall i, j | 0 <= i < |rows| && 0 <= j < |rows| ::
      TurnKey(rows[i]) == TurnKey(rows[j]) ==> Shown(rows[i].household) == Shown(rows[j].household)
  }

  lemma ChargedNext(rows: seq<Row>, r: Row, household: string)
    ensures ChargedTo(rows + [r], household)
            == if Shown(r.household) == household then ChargedTo(rows, household) + [r] else ChargedTo(rows, household)
  {
    assert (rows + [r])[..|rows|] == rows;
  }

  /** One more row, of which it is known whether the household is the turn's. */
  lemma ChargedTurnNext(rows: seq<Row>, r: Row, household: string, key: string, home: string)
    requires TurnKey(r) == key ==> Shown(r.household) == home
    requires RowsOf(ChargedTo(rows, household), key) == if home == household then RowsOf(rows, key) else []
    ensures RowsOf(ChargedTo(rows + [r], household), key) == if home == household then RowsOf(rows + [r], key) else []
  {
    ChargedNext(rows, r, household);
    RowsOfNext(rows, r, key);
    RowsOfNext(ChargedTo(rows, household), r, key);
  }

  lemma {:induction false} ChargedTurn(rows: seq<Row>, household: string, key: string, home: string)
    requires forall i | 0 <= i < |rows| :: TurnKey(rows[i]) == key ==> Shown(rows[i].household) == home
    ensures RowsOf(ChargedTo(rows, household), key) == if home == household then RowsOf(rows, key) else []
  {
    if rows != [] {
      var n := |rows| - 1;
      ChargedTurn(rows[..n], household, key, home);
      ChargedTurnNext(rows[..n], rows[n], household, key, home);
      LastSplit(rows);
    }
  }

  lemma {:induction false} FirstOfTurn(rows: seq<Row>, key: string) returns (i: nat)
    requires RowsOf(rows, key) != []
    ensures i < |rows| && TurnKey(rows[i]) == key && rows[i] == RowsOf(rows, key)[0]
  {
    var n := |rows| - 1;
    if RowsOf(rows[..n], key) != [] {
      i := FirstOfTurn(rows[..n], key);
    } else {
      i := n;
    }
  }

  /** Each turn's cost, where it is charged to the household, is that of the household's own rows of the turn. */
  ghost predicate ChargedByTurn(own: seq<Row>, order: seq<string>, list: seq<TurnTotals>, household: string)
  {
    && |list| == |order|
    && forall i | 0 <= i < |list| ::
         Cost(RowsOf(own, order[i])) == if Shown(list[i].household) == household then list[i].cost else 0
  }

  lemma {:induction false} HouseholdTo(own: seq<Row>, order: seq<string>, list: seq<TurnTotals>, household: string, n: nat)
    requires ChargedByTurn(own, order, list, household) && n <= |list|
    ensures CostTo(list, household, n) == SumTurnsTo(own, order, n)
  {
    if n > 0 {
      HouseholdTo(own, order, list, household, n - 1);
      OneMoreTurn(list, household, n);
    }
  }

  /** The household's cost over the first turns. */
  function CostTo(turns: seq<TurnTotals>, household: string, n: nat): nat
    requires n <= |turns|
  {
    HouseholdOf(turns[..n], household).cost
  }

  lemma TurnsAreCharged(rows: seq<Row>, t: Table<TurnTotals>, household: string)
    requires IsTurnTable(t, rows) && TurnsStayHome(rows)
    ensures ChargedByTurn(ChargedTo(rows, household), t.order, TurnList(t), household)
  {
    forall i | 0 <= i < |t.order|
      ensures Cost(RowsOf(ChargedTo(rows, household), t.order[i]))
              == if Shown(TurnList(t)[i].household) == household then TurnList(t)[i].cost else 0
    {
      assert t.order[i] in t.order;
      HouseholdOfTurn(rows, t, household, t.order[i]);
    }
  }

  lemma OneMoreTurn(turns: seq<TurnTotals>, household: string, n: nat)
    requires 0 < n <= |turns|
    ensures CostTo(turns, household, n) == CostTo(turns, household, n - 1)
               + if Shown(turns[n - 1].household) == household then turns[n - 1].cost else 0
  {
    PrefixOfPrefix(turns, n);
  }

  lemma HouseholdOfTurn(rows: seq<Row>, t: Table<TurnTotals>, household: string, key: string)
    requires IsTurnTable(t, rows) && TurnsStayHome(rows) && key in t.order
    ensures key in t.cells
    ensures Cost(RowsOf(ChargedTo(rows, household), key))
            == if Shown(t.cells[key].household) == household then t.cells[key].cost else 0
  {
    assert key in t.cells;
    assert IsTurn(RowsOf(rows, key), t.cells[key]);
    var i := FirstOfTurn(rows, key);
    ChargedTurn(rows, household, key, Shown(rows[i].household));
  }

  lemma {:induction false} ChargedIn(rows: seq<Row>, household: string, r: Row)
    requires r in ChargedTo(rows, household)
    ensures r in rows
  {
    var n := |rows| - 1;
    if r in ChargedTo(rows[..n], household) { ChargedIn(rows[..n], household, r); }
  }

  /**
    The report charges a whole turn to the household of its first row. When no turn has rows of two
    households, every household's cost is the cost of exactly its own rows.
  */
  lemma HouseholdCostIsItsRows(rows: seq<Row>, household: string)
    requires TurnsStayHome(rows)
    ensures IsTurnTable(TurnTable(rows), rows)
    ensures HouseholdOf(TurnList(TurnTable(rows)), household).cost == Cost(ChargedTo(rows, household))
  {
    TurnTableHolds(rows);
    var t, own := TurnTable(rows), ChargedTo(rows, household);
    TurnsAreCharged(rows, t, household);
    HouseholdTo(own, t.order, TurnList(t), household, |t.order|);
    assert TurnList(t)[..|t.order|] == TurnList(t);
    OwnCost(rows, t, household);
  }

  lemma OwnCost(rows: seq<Row>, t: Table<TurnTotals>, household: string)
    requires IsTurnTable(t, rows)
    ensures SumTurnsTo(ChargedTo(rows, household), t.order, |t.order|) == Cost(ChargedTo(rows, household))
  {
    var own := ChargedTo(rows, household);
    SumTurnsBothWays(own, t.order);
    forall i | 0 <= i < |own| ensures TurnKey(own[i]) in t.order {
      ChargedIn(rows, household, own[i]);
      var j :| 0 <= j < |rows| && rows[j] == own[i];
      InRowsOf(rows, j);
    }
    TurnSum(own, t.order);
  }

  /** What the report shows for a household. */
  function Reported(rows: seq<Row>, household: string): nat
  {
    TurnTableHolds(rows);
    HouseholdOf(TurnList(TurnTable(rows)), household).cost
  }

  /** The one turn of two rows, as the report holds it. */
  function BothRows(r: Row, s: Row): TurnTotals
  {
    AddToTurn(AddToTurn(TurnTotals(0, 0, Some(0), r.household), r), s)
  }

  lemma OneTurn(r: Row, s: Row)
    requires TurnKey(r) == TurnKey(s)
    ensures Lists(TurnTable([r, s])) && TurnList(TurnTable([r, s])) == [BothRows(r, s)]
  {
    var one := WithTurn(TurnTable([]), r);
    assert [r][..0] == [];
    assert one.order == [TurnKey(r)];
    assert [r, s][..1] == [r];
    assert TurnTable([r, s]) == WithTurn(one, s);
    TurnTableHolds([r, s]);
  }

  /** A turn of two households: the second row's cost is shown for the first row's household. */
  lemma TurnOfTwoHouseholds(r: Row, s: Row)
    requires TurnKey(r) == TurnKey(s) && Shown(r.household) != Shown(s.household)
    ensures Reported([r, s], Shown(s.household)) == 0
    ensures Reported([r, s], Shown(r.household)) == r.cost + s.cost
    ensures Cost(ChargedTo([r, s], Shown(s.household))) == s.cost
  {
    OneTurn(r, s);
    assert [] + [BothRows(r, s)] == [BothRows(r, s)];
    HouseholdOfNext([], BothRows(r, s), Shown(r.household));
    HouseholdOfNext([], BothRows(r, s), Shown(s.household));
    ChargedSecond(r, s);
  }

  lemma ChargedSecond(r: Row, s: Row)
    requires Shown(r.household) != Shown(s.household)
    ensures Cost(ChargedTo([r, s], Shown(s.household))) == s.cost
  {
    assert [] + [r] == [r] && [r] + [s] == [r, s];
    ChargedNext([], r, Shown(s.household));
    ChargedNext([r], s, Shown(s.household));
    CostNext([], s);
  }

  /** The rows with other costs. */
  function Repriced(rows: seq<Row>, costs: seq<nat>): (r: seq<Row>)
    requires |costs| == |rows|
    ensures |r| == |rows| && forall i | 0 <= i < |r| :: r[i] == rows[i].(cost := costs[i])
  {
    seq(|rows|, i requires 0 <= i < |rows| => rows[i].(cost := costs[i]))
  }

  lemma {:induction false} RepricedTurn(rows: seq<Row>, costs: seq<nat>, key: string)
    requires |costs| == |rows|
    ensures |RowsOf(Repriced(rows, costs), key)| == |RowsOf(rows, key)|
    ensures forall i | 0 <= i < |RowsOf(rows, key)| ::
              RowsOf(Repriced(rows, costs), key)[i].household == RowsOf(rows, key)[i].household
  {
    if rows != [] {
      var n := |rows| - 1;
      RepricedTurn(rows[..n], costs[..n], key);
      assert Repriced(rows, costs)[..n] == Repriced(rows[..n], costs[..n]);
    }
  }

  lemma {:induction false} RowsOfIn(rows: seq<Row>, key: string, r: Row)
    ensures r in RowsOf(rows, key) <==> r in rows && TurnKey(r) == key
  {
    if rows != [] {
      RowsOfIn(rows[..|rows| - 1], key, r);
      LastSplit(rows);
    }
  }

  lemma {:induction false} ChargedHas(rows: seq<Row>, household: string, r: Row)
    requires r in rows && Shown(r.household) == household
    ensures r in ChargedTo(rows, household)
  {
    var n := |rows| - 1;
    LastSplit(rows);
    if r in rows[..n] { ChargedHas(rows[..n], household, r); }
  }

  lemma {:induction false} CostAtLeast(rows: seq<Row>, r: Row)
    requires r in rows
    ensures Cost(rows) >= r.cost
  {
    var n := |rows| - 1;
    LastSplit(rows);
    if r in rows[..n] { CostAtLeast(rows[..n], r); }
  }

  lemma {:induction false} CostZero(rows: seq<Row>)
    requires forall r | r in rows :: r.cost == 0
    ensures Cost(rows) == 0
  {
    if rows != [] {
      LastSplit(rows);
      CostZero(rows[..|rows| - 1]);
    }
  }

  lemma {:induction false} FreeHousehold(turns: seq<TurnTotals>, household: string)
    requires forall t | t in turns && Shown(t.household) == household :: t.cost == 0
    ensures HouseholdOf(turns, household).cost == 0
  {
    if turns != [] {
      LastSplit(turns);
      FreeHousehold(turns[..|turns| - 1], household);
    }
  }

  /** For every price list and household, what is shown is the cost of the household's own rows. */
  ghost predicate ChargesRight(rows: seq<Row>)
  {
    forall costs: seq<nat>, household | |costs| == |rows| ::
      Reported(Repriced(rows, costs), household) == Cost(ChargedTo(Repriced(rows, costs), household))
  }

  /** Only the `k`-th row costs anything. */
  function OnlyCost(n: nat, k: nat): (costs: seq<nat>)
    ensures |costs| == n && forall i | 0 <= i < n :: costs[i] == One(i == k)
  {
    seq<nat>(n, i => One(i == k))
  }

  /** A row of another household than its turn's first. */
  predicate Strays(rows: seq<Row>, k: nat)
  {
    && k < |rows|
    && var own := RowsOf(rows, TurnKey(rows[k]));
    && own != []
    && Shown(own[0].household) != Shown(rows[k].household)
  }

  /** A turn that does not contain the one row with a cost. */
  lemma FreeTurn(rows: seq<Row>, k: nat, key: string, turn: TurnTotals)
    requires k < |rows| && forall i | 0 <= i < |rows| && i != k :: rows[i].cost == 0
    requires IsTurn(RowsOf(rows, key), turn)
    requires key == TurnKey(rows[k]) ==> Shown(turn.household) != Shown(rows[k].household)
    ensures Shown(turn.household) == Shown(rows[k].household) ==> turn.cost == 0
  {
    if key != TurnKey(rows[k]) {
      forall r | r in RowsOf(rows, key) ensures r.cost == 0 {
        RowsOfIn(rows, key, r);
      }
      CostZero(RowsOf(rows, key));
    }
  }

  lemma FreeCell(rows: seq<Row>, t: Table<TurnTotals>, k: nat, key: string)
    requires Strays(rows, k) && forall i | 0 <= i < |rows| && i != k :: rows[i].cost == 0
    requires IsTurnTable(t, rows) && key in t.order
    ensures key in t.cells && (Shown(t.cells[key].household) == Shown(rows[k].household) ==> t.cells[key].cost == 0)
  {
    assert key in t.cells;
    FreeTurn(rows, k, key, t.cells[key]);
  }

  /** The only row with a cost stays the only one that strays: nothing is shown for its household. */
  lemma StrayShown(rows: seq<Row>, k: nat)
    requires Strays(rows, k) && forall i | 0 <= i < |rows| && i != k :: rows[i].cost == 0
    ensures Reported(rows, Shown(rows[k].household)) == 0
  {
    var t, home := TurnTable(rows), Shown(rows[k].household);
    TurnTableHolds(rows);
    forall i | 0 <= i < |t.order| ensures Shown(TurnList(t)[i].household) == home ==> TurnList(t)[i].cost == 0 {
      FreeCell(rows, t, k, t.order[i]);
    }
    FreeHousehold(TurnList(t), home);
  }

  lemma StrayCosts(rows: seq<Row>, k: nat)
    requires k < |rows|
    ensures Cost(ChargedTo(rows, Shown(rows[k].household))) >= rows[k].cost
  {
    assert rows[k] in rows;
    ChargedHas(rows, Shown(rows[k].household), rows[k]);
    CostAtLeast(ChargedTo(rows, Shown(rows[k].household)), rows[k]);
  }

  lemma StrayStays(rows: seq<Row>, costs: seq<nat>, k: nat)
    requires |costs| == |rows| && Strays(rows, k)
    ensures Strays(Repriced(rows, costs), k)
  {
    RepricedTurn(rows, costs, TurnKey(rows[k]));
  }

  lemma NotRight(rows: seq<Row>, k: nat)
    requires Strays(rows, k)
    ensures !ChargesRight(rows)
  {
    var costs := OnlyCost(|rows|, k);
    var priced := Repriced(rows, costs);
    StrayStays(rows, costs, k);
    StrayShown(priced, k);
    StrayCosts(priced, k);
  }

  /**
    Given the turns and households of the rows, the report charges every household with its own rows,
    whatever they cost, exactly when no turn has rows of two households.
  */
  lemma ChargesRightExactlyWhen(rows: seq<Row>)
    ensures ChargesRight(rows) <==> TurnsStayHome(rows)
  {
    if TurnsStayHome(rows) {
      forall costs: seq<nat>, household | |costs| == |rows|
        ensures Reported(Repriced(rows, costs), household) == Cost(ChargedTo(Repriced(rows, costs), household))
      {
        HouseholdCostIsItsRows(Repriced(rows, costs), household);
      }
    } else {
      var i, j :| 0 <= i < |rows| && 0 <= j < |rows| && TurnKey(rows[i]) == TurnKey(rows[j])
                  && Shown(rows[i].household) != Shown(rows[j].household);
      InRowsOf(rows, i);
      var home := Shown(RowsOf(rows, TurnKey(rows[i]))[0].household);
      var k := if Shown(rows[i].household) != home then i else j;
      InRowsOf(rows, k);
      NotRight(rows, k);
    }
  }
}
