/** The views of the loops dashboard: each one groups the same list of loops in a map and must agree with direct counts. */
module LoopsDashboard {
  import opened Ecma
  import opened StableSort
  import opened GroupBy

  datatype Issue = Issue(
    id: string,
    title: string,
    status: string,
    priority: string,
    targetRepo: string,
    created: string,
    updated: string,
    sourceChannel: string,
    sourceKind: string)

  datatype LoopState = LoopState(phase: string, specVersion: string, paused: bool, globalVerdict: Option<string>, finalized: bool)

  datatype Item = Item(issue: Issue, state: Option<LoopState>)

  datatype Cost = Cost(issueId: string, tripped: bool)

  /** The cost of each issue; of two costs for one issue the last one is taken. */
  function CostByIssue(cost: seq<Cost>): map<string, Cost> {
    if cost == [] then map[] else var n := |cost| - 1; CostByIssue(cost[..n])[cost[n].issueId := cost[n]]
  }

  predicate Tripped(item: Item, costs: map<string, Cost>) {
    item.issue.id in costs && costs[item.issue.id].tripped
  }

  /** A global verdict other than a pass. */
  predicate Refused(item: Item) {
    item.state.Some? && item.state.value.globalVerdict.Some? && item.state.value.globalVerdict.value !in {"", "PASS"}
  }

  predicate Failed(item: Item) {
    item.state.Some? && item.state.value.globalVerdict == Some("FAIL")
  }

  predicate Paused(item: Item) {
    item.state.Some? && item.state.value.paused
  }

  predicate InPhase(item: Item, phases: set<string>) {
    item.state.Some? && item.state.value.phase in phases
  }

  // The board.

  datatype ColumnId = Backlog | SpecReview | Running | Blocked | ReadyToShip | Delivered

  datatype Gate = SpecReviewGate | ExceptionGate | ReleaseGate | NoGate | DoneGate

  predicate IsDelivered(item: Item) {
    item.issue.status == "CLOSED" || InPhase(item, {"CLOSED"}) || (item.state.Some? && item.state.value.finalized)
  }

  predicate IsReadyToShipCandidate(item: Item) {
    (item.state.Some? && item.state.value.globalVerdict == Some("PASS")) ||
    InPhase(item, {"PHASE_6_CONVERGE", "PHASE_7_GLOBAL_REVIEW", "PHASE_8_ANNOTATE"})
  }

  /** Nothing is past the first specification yet. */
  predicate InBacklog(item: Item) {
    item.state.None? || item.state.value.specVersion == "v0" || InPhase(item, {"PHASE_0_INTAKE", "PHASE_1_SPEC"})
  }

  function InferBoardColumn(item: Item, costs: map<string, Cost>): ColumnId {
    if IsDelivered(item) then Delivered
    else if Paused(item) || Tripped(item, costs) || Refused(item) then Blocked
    else if InBacklog(item) then Backlog
    else if InPhase(item, {"PHASE_2_REVIEW"}) then SpecReview
    else if IsReadyToShipCandidate(item) then ReadyToShip
    else Running
  }

  function InferHumanGate(item: Item, costs: map<string, Cost>): Gate {
    if IsDelivered(item) then DoneGate
    else if Paused(item) || Tripped(item, costs) || Refused(item) then ExceptionGate
    else if InPhase(item, {"PHASE_2_REVIEW"}) then SpecReviewGate
    else if IsReadyToShipCandidate(item) then ReleaseGate
    else NoGate
  }

  function InferBlocker(item: Item, costs: map<string, Cost>): Option<string> {
    if Tripped(item, costs) then Some("Cost guard")
    else if Paused(item) then Some("Paused")
    else if Refused(item) then Some("Global " + item.state.value.globalVerdict.value)
    else None
  }

  /**
   The gate of a loop and its column are inferred apart, and agree as follows: 'Done' and 'Exception' are the delivered
   and the blocked column; the other gates are their columns, but for the loops that are still in the backlog.
   */
  lemma GatesFollowColumns(item: Item, costs: map<string, Cost>)
    ensures var gate, column := InferHumanGate(item, costs), InferBoardColumn(item, costs);
            && (column == Delivered <==> gate == DoneGate)
            && (column == Blocked <==> gate == ExceptionGate)
            && (column == SpecReview <==> gate == SpecReviewGate && !InBacklog(item))
            && (column == ReadyToShip <==> gate == ReleaseGate && !InBacklog(item))
            && (column == Running <==> gate == NoGate && !InBacklog(item))
            && (column == Blocked <==> InferBlocker(item, costs).Some? && gate != DoneGate)
  {
    if item.state.Some? && item.state.value.phase == "PHASE_2_REVIEW" {
      assert !InPhase(item, {"PHASE_0_INTAKE", "PHASE_1_SPEC"});
    }
  }

  datatype Mode = PlanMode | CodeMode | ReviewMode | RecoveryMode | DeliveredMode

  function InferMode(item: Item): Mode {
    if IsDelivered(item) then DeliveredMode
    else if Paused(item) || Failed(item) then RecoveryMode
    else if InPhase(item, {"PHASE_0_INTAKE", "PHASE_1_SPEC", "PHASE_3_DECOMPOSE"}) then PlanMode
    else if InPhase(item, {"PHASE_2_REVIEW", "PHASE_6_CONVERGE", "PHASE_7_GLOBAL_REVIEW"}) then ReviewMode
    else CodeMode
  }

  /** A loop in recovery is blocked; a blocked loop is in recovery unless only its costs or another verdict block it. */
  lemma ModesFollowColumns(item: Item, costs: map<string, Cost>)
    ensures InferMode(item) == DeliveredMode <==> InferBoardColumn(item, costs) == Delivered
    ensures InferMode(item) == RecoveryMode <==> InferBoardColumn(item, costs) == Blocked && (Paused(item) || Failed(item))
  {
  }

  datatype Card = Card(id: string, title: string, priority: string, mode: Mode, humanGate: Gate, blocker: Option<string>)

  datatype Column = Column(id: ColumnId, items: seq<Card>)

  const COLUMNS: seq<ColumnId> := [Backlog, SpecReview, Running, Blocked, ReadyToShip, Delivered]

  function PriorityRank(priority: string): nat {
    if priority == "P0" then 0 else if priority == "P1" then 1 else if priority == "P2" then 2 else if priority == "P3" then 3 else 99
  }

  function RankOf(card: Card): int {
    PriorityRank(card.priority)
  }

  function TitleOf(card: Card): string {
    card.title
  }

  /** By priority, and then by title in the order of the locale. */
  function CardOrder(collate: (string, string) -> bool): (Card, Card) -> bool {
    Then(On(RankOf, Ascending()), On(TitleOf, collate))
  }

  function CardFor(costs: map<string, Cost>): Item -> Card {
    (item: Item) =>
      Card(item.issue.id, item.issue.title, item.issue.priority,
           InferMode(item), InferHumanGate(item, costs), InferBlocker(item, costs))
  }

  function ColumnFor(costs: map<string, Cost>): Item -> ColumnId {
    (item: Item) => InferBoardColumn(item, costs)
  }

  /** The cards of one column, before they are sorted. */
  function CardsIn(items: seq<Item>, costs: map<string, Cost>, id: ColumnId): seq<Card> {
    Mapped(Of(items, ColumnFor(costs), id), CardFor(costs))
  }

  function SortedColumn(items: seq<Item>, costs: map<string, Cost>, collate: (string, string) -> bool): ColumnId -> Column {
    (id: ColumnId) => Column(id, Sorted(CardsIn(items, costs, id), CardOrder(collate)))
  }

  lemma CardsInNext(items: seq<Item>, i: nat, costs: map<string, Cost>, id: ColumnId)
    requires i < |items|
    ensures CardsIn(items[..i + 1], costs, id)
         == CardsIn(items[..i], costs, id) + if InferBoardColumn(items[i], costs) == id then [CardFor(costs)(items[i])] else []
  {
    var group := Of(items[..i], ColumnFor(costs), id);
    assert items[..i + 1][..i] == items[..i];
    MappedAppend(group, items[i], CardFor(costs));
    assert group + [] == group;
  }

  /** The loop over the items, each of which goes to the end of its column. */
  method FillColumns(items: seq<Item>, costs: map<string, Cost>) returns (columnById: map<ColumnId, seq<Card>>)
    ensures forall id :: id in columnById && columnById[id] == CardsIn(items, costs, id)
  {
    columnById := map[Backlog := [], SpecReview := [], Running := [], Blocked := [], ReadyToShip := [], Delivered := []];
    forall id ensures id in columnById && columnById[id] == CardsIn(items[..0], costs, id) {
      match id case Backlog => case SpecReview => case Running => case Blocked => case ReadyToShip => case Delivered =>
    }
    for i := 0 to |items|
      invariant forall id :: id in columnById && columnById[id] == CardsIn(items[..i], costs, id)
    {
      var id := InferBoardColumn(items[i], costs);
      forall id' ensures CardsIn(items[..i + 1], costs, id')
                      == CardsIn(items[..i], costs, id') + if id == id' then [CardFor(costs)(items[i])] else [] {
        CardsInNext(items, i, costs, id');
      }
      columnById := columnById[id := columnById[id] + [CardFor(costs)(items[i])]];
    }
    assert items[..|items|] == items;
  }

  method BuildLoopBoard(items: seq<Item>, cost: seq<Cost>, collate: (string, string) -> bool) returns (columns: seq<Column>)
    ensures columns == Mapped(COLUMNS, SortedColumn(items, CostByIssue(cost), collate))
  {
    var costs := CostByIssue(cost);
    var columnById := FillColumns(items, costs);
    columns := [];
    for i := 0 to |COLUMNS|
      invariant columns == Mapped(COLUMNS[..i], SortedColumn(items, costs, collate))
    {
      MappedNext(COLUMNS, i, SortedColumn(items, costs, collate));
      columns := columns + [Column(COLUMNS[i], Sorted(columnById[COLUMNS[i]], CardOrder(collate)))];
    }
    assert COLUMNS[..|COLUMNS|] == COLUMNS;
  }

  function AllCards(columns: seq<Column>): seq<Card> {
    if columns == [] then [] else columns[0].items + AllCards(columns[1..])
  }

  ghost function CardsOfColumns(items: seq<Item>, costs: map<string, Cost>, ids: seq<ColumnId>): multiset<Card> {
    if ids == [] then multiset{} else multiset(CardsIn(items, costs, ids[0])) + CardsOfColumns(items, costs, ids[1..])
  }

  /** The card, if its column is among `ids`. */
  ghost function PlacedIn(ids: seq<ColumnId>, column: ColumnId, card: Card): multiset<Card> {
    if column in ids then multiset{card} else multiset{}
  }

  lemma PlacedInCons(ids: seq<ColumnId>, column: ColumnId, card: Card)
    requires ids != [] && Distinct(ids)
    ensures PlacedIn(ids, column, card) == (if column == ids[0] then multiset{card} else multiset{}) + PlacedIn(ids[1..], column, card)
  {
    if column in ids[1..] {
      var k :| 0 <= k < |ids| - 1 && ids[1..][k] == column;
      assert ids[k + 1] == column && ids[0] != ids[k + 1];
    }
  }

  lemma {:induction false} CardsOfColumnsNext(items: seq<Item>, i: nat, costs: map<string, Cost>, ids: seq<ColumnId>)
    requires i < |items| && Distinct(ids)
    ensures CardsOfColumns(items[..i + 1], costs, ids)
         == CardsOfColumns(items[..i], costs, ids) + PlacedIn(ids, InferBoardColumn(items[i], costs), CardFor(costs)(items[i]))
    decreases |ids|
  {
    if ids != [] {
      CardsOfColumnsNext(items, i, costs, ids[1..]);
      CardsOfColumnNext(items, i, costs, ids[0]);
      PlacedInCons(ids, InferBoardColumn(items[i], costs), CardFor(costs)(items[i]));
    }
  }

  lemma CardsOfColumnNext(items: seq<Item>, i: nat, costs: map<string, Cost>, id: ColumnId)
    requires i < |items|
    ensures var added := if InferBoardColumn(items[i], costs) == id then multiset{CardFor(costs)(items[i])} else multiset{};
            multiset(CardsIn(items[..i + 1], costs, id)) == multiset(CardsIn(items[..i], costs, id)) + added
  {
    CardsInNext(items, i, costs, id);
  }

  lemma {:induction false} EveryCardIsPlaced(items: seq<Item>, costs: map<string, Cost>, ids: seq<ColumnId>, n: nat)
    requires n <= |items| && Distinct(ids) && forall id :: id in ids
    ensures CardsOfColumns(items[..n], costs, ids) == multiset(Mapped(items[..n], CardFor(costs)))
    decreases n
  {
    if n == 0 {
      NoCards(costs, ids);
      assert items[..0] == [];
    } else {
      var i := n - 1;
      var cards, card := Mapped(items[..i], CardFor(costs)), CardFor(costs)(items[i]);
      EveryCardIsPlaced(items, costs, ids, i);
      CardIsPlaced(items, costs, ids, i, card);
      MappedNext(items, i, CardFor(costs));
      assert multiset(cards + [card]) == multiset(cards) + multiset{card};
    }
  }

  lemma CardIsPlaced(items: seq<Item>, costs: map<string, Cost>, ids: seq<ColumnId>, i: nat, card: Card)
    requires i < |items| && Distinct(ids) && (forall id :: id in ids) && card == CardFor(costs)(items[i])
    ensures CardsOfColumns(items[..i + 1], costs, ids) == CardsOfColumns(items[..i], costs, ids) + multiset{card}
  {
    CardsOfColumnsNext(items, i, costs, ids);
  }

  lemma {:induction false} NoCards(costs: map<string, Cost>, ids: seq<ColumnId>)
    ensures CardsOfColumns([], costs, ids) == multiset{}
    decreases |ids|
  {
    if ids != [] { NoCards(costs, ids[1..]); }
  }

  lemma AllColumns()
    ensures Distinct(COLUMNS) && forall id :: id in COLUMNS
  {
    forall id ensures id in COLUMNS {
      assert COLUMNS[0] == Backlog && COLUMNS[1] == SpecReview && COLUMNS[2] == Running;
      assert COLUMNS[3] == Blocked && COLUMNS[4] == ReadyToShip && COLUMNS[5] == Delivered;
      match id case Backlog => case SpecReview => case Running => case Blocked => case ReadyToShip => case Delivered =>
    }
  }

  lemma {:induction false} SortedColumnsCards(items: seq<Item>, costs: map<string, Cost>, collate: (string, string) -> bool, ids: seq<ColumnId>)
    ensures multiset(AllCards(Mapped(ids, SortedColumn(items, costs, collate)))) == CardsOfColumns(items, costs, ids)
    decreases |ids|
  {
    if ids != [] {
      var columns := Mapped(ids, SortedColumn(items, costs, collate));
      SortedColumnsCards(items, costs, collate, ids[1..]);
      SortedIsPermutation(CardsIn(items, costs, ids[0]), CardOrder(collate));
      assert columns[0].items == Sorted(CardsIn(items, costs, ids[0]), CardOrder(collate));
      assert columns[1..] == Mapped(ids[1..], SortedColumn(items, costs, collate));
    }
  }

  /** The columns of the board together hold one card for every loop, and no other. */
  lemma BoardIsPermutation(items: seq<Item>, cost: seq<Cost>, collate: (string, string) -> bool)
    ensures multiset(AllCards(Mapped(COLUMNS, SortedColumn(items, CostByIssue(cost), collate))))
         == multiset(Mapped(items, CardFor(CostByIssue(cost))))
  {
    SortedColumnsCards(items, CostByIssue(cost), collate, COLUMNS);
    AllColumns();
    EveryCardIsPlaced(items, CostByIssue(cost), COLUMNS, |items|);
    assert items[..|items|] == items;
  }

  lemma CardOrderIsConsistent(collate: (string, string) -> bool)
    requires IsConsistent(collate)
    ensures IsConsistent(CardOrder(collate))
  {
    OnIsConsistent(RankOf, Ascending());
    OnIsConsistent(TitleOf, collate);
    ThenIsConsistent(On(RankOf, Ascending()), On(TitleOf, collate));
  }

  /** The cards of a column are in order, and those of one priority and title keep the order of the loops. */
  lemma ColumnIsStable(items: seq<Item>, costs: map<string, Cost>, collate: (string, string) -> bool, id: ColumnId)
    requires IsConsistent(collate)
    ensures var cards := SortedColumn(items, costs, collate)(id).items;
            IsSorted(cards, CardOrder(collate)) && SameTies(cards, CardsIn(items, costs, id), CardOrder(collate))
  {
    CardOrderIsConsistent(collate);
    SortedIsStable(CardsIn(items, costs, id), CardOrder(collate));
  }

  lemma {:induction false} GateOfCardsIn(items: seq<Item>, costs: map<string, Cost>, id: ColumnId, n: nat)
    requires n <= |items| && id in {Blocked, Delivered}
    ensures var gate := if id == Blocked then ExceptionGate else DoneGate;
            CardsIn(items[..n], costs, id) == WithGate(Mapped(items[..n], CardFor(costs)), gate)
    decreases n
  {
    if n > 0 {
      var gate, row := if id == Blocked then ExceptionGate else DoneGate, CardFor(costs);
      GateOfCardsIn(items, costs, id, n - 1);
      CardsInNext(items, n - 1, costs, id);
      GatesFollowColumns(items[n - 1], costs);
      MappedNext(items, n - 1, row);
      WithGateAppend(Mapped(items[..n - 1], row), row(items[n - 1]), gate);
    } else {
      assert items[..0] == [];
    }
  }

  function WithGate(cards: seq<Card>, gate: Gate): seq<Card> {
    if cards == [] then [] else (if cards[0].humanGate == gate then [cards[0]] else []) + WithGate(cards[1..], gate)
  }

  lemma WithGateCons(card: Card, cards: seq<Card>, gate: Gate)
    ensures WithGate([card] + cards, gate) == (if card.humanGate == gate then [card] else []) + WithGate(cards, gate)
  {
    assert ([card] + cards)[1..] == cards;
  }

  lemma {:induction false} WithGateAppend(cards: seq<Card>, card: Card, gate: Gate)
    ensures WithGate(cards + [card], gate) == WithGate(cards, gate) + if card.humanGate == gate then [card] else []
    decreases |cards|
  {
    var last := if card.humanGate == gate then [card] else [];
    if cards == [] {
      WithGateCons(card, [], gate);
      assert [card] + [] == [card] && [] + [card] == [card] && last + [] == last && [] + last == last;
    } else {
      var head, tail := cards[0], cards[1..];
      WithGateAppend(tail, card, gate);
      WithGateCons(head, tail + [card], gate);
      ConcatAssoc([head], tail, [card]);
      assert [head] + tail == cards;
      ConcatAssoc(if head.humanGate == gate then [head] else [], WithGate(tail, gate), last);
    }
  }

  /** The blocked column holds exactly the cards with the gate 'Exception', and the delivered column those that are done. */
  lemma BlockedAreExceptions(items: seq<Item>, costs: map<string, Cost>, collate: (string, string) -> bool)
    ensures var cards := Mapped(items, CardFor(costs));
            && SortedColumn(items, costs, collate)(Blocked).items == Sorted(WithGate(cards, ExceptionGate), CardOrder(collate))
            && SortedColumn(items, costs, collate)(Delivered).items == Sorted(WithGate(cards, DoneGate), CardOrder(collate))
  {
    GateOfCardsIn(items, costs, Blocked, |items|);
    GateOfCardsIn(items, costs, Delivered, |items|);
    assert items[..|items|] == items;
  }

  // The rules, in terms of the loop and the costs as they come in.

  /** The last cost of the issue says that its budget is exceeded. */
  ghost predicate OverBudget(id: string, cost: seq<Cost>) {
    exists k :: 0 <= k < |cost| && cost[k].issueId == id && cost[k].tripped && forall j :: k < j < |cost| ==> cost[j].issueId != id
  }

  lemma {:induction false} TrippedIff(item: Item, cost: seq<Cost>)
    ensures Tripped(item, CostByIssue(cost)) <==> OverBudget(item.issue.id, cost)
    decreases |cost|
  {
    if cost != [] {
      var n := |cost| - 1;
      TrippedIff(item, cost[..n]);
      if cost[n].issueId != item.issue.id { OverBudgetBefore(item.issue.id, cost); }
    }
  }

  lemma OverBudgetBefore(id: string, cost: seq<Cost>)
    requires cost != [] && cost[|cost| - 1].issueId != id
    ensures OverBudget(id, cost) <==> OverBudget(id, cost[..|cost| - 1])
  {
    var before := cost[..|cost| - 1];
    if OverBudget(id, before) {
      var k :| 0 <= k < |before| && before[k].issueId == id && before[k].tripped && forall j :: k < j < |before| ==> before[j].issueId != id;
      assert cost[k] == before[k] && forall j :: k < j < |before| ==> cost[j] == before[j];
    }
    if OverBudget(id, cost) {
      var k :| 0 <= k < |cost| && cost[k].issueId == id && cost[k].tripped && forall j :: k < j < |cost| ==> cost[j].issueId != id;
      assert before[k] == cost[k] && forall j :: k < j < |before| ==> before[j] == cost[j];
    }
  }

  ghost predicate IsDone(item: Item) {
    item.issue.status == "CLOSED" || (item.state.Some? && (item.state.value.phase == "CLOSED" || item.state.value.finalized))
  }

  ghost predicate IsHeldUp(item: Item, cost: seq<Cost>) {
    || OverBudget(item.issue.id, cost)
    || (item.state.Some?
        && (item.state.value.paused
            || (item.state.value.globalVerdict.Some? && item.state.value.globalVerdict.value != ""
                && item.state.value.globalVerdict.value != "PASS")))
  }

  /** The loop has a specification later than the first, and a phase later than the specification. */
  ghost predicate IsSpecified(item: Item) {
    item.state.Some? && item.state.value.specVersion != "v0"
    && item.state.value.phase != "PHASE_0_INTAKE" && item.state.value.phase != "PHASE_1_SPEC"
  }

  ghost predicate IsConverging(item: Item) {
    item.state.Some?
    && (item.state.value.globalVerdict == Some("PASS") || item.state.value.phase == "PHASE_6_CONVERGE"
        || item.state.value.phase == "PHASE_7_GLOBAL_REVIEW" || item.state.value.phase == "PHASE_8_ANNOTATE")
  }

  /** Each column has a condition of its own, and a loop meets exactly one of them. */
  lemma ColumnRules(item: Item, cost: seq<Cost>)
    ensures var column := InferBoardColumn(item, CostByIssue(cost));
            var open := !IsDone(item) && !IsHeldUp(item, cost);
            var review := item.state.Some? && item.state.value.phase == "PHASE_2_REVIEW";
            && (column == Delivered <==> IsDone(item))
            && (column == Blocked <==> !IsDone(item) && IsHeldUp(item, cost))
            && (column == Backlog <==> open && !IsSpecified(item))
            && (column == SpecReview <==> open && IsSpecified(item) && review)
            && (column == ReadyToShip <==> open && IsSpecified(item) && !review && IsConverging(item))
            && (column == Running <==> open && IsSpecified(item) && !review && !IsConverging(item))
  {
    TrippedIff(item, cost);
  }

  /** So has each gate. */
  lemma GateRules(item: Item, cost: seq<Cost>)
    ensures var gate := InferHumanGate(item, CostByIssue(cost));
            var open := !IsDone(item) && !IsHeldUp(item, cost);
            var review := item.state.Some? && item.state.value.phase == "PHASE_2_REVIEW";
            && (gate == DoneGate <==> IsDone(item))
            && (gate == ExceptionGate <==> !IsDone(item) && IsHeldUp(item, cost))
            && (gate == SpecReviewGate <==> open && review)
            && (gate == ReleaseGate <==> open && !review && IsConverging(item))
            && (gate == NoGate <==> open && !review && !IsConverging(item))
  {
    TrippedIff(item, cost);
  }

  /** The mode depends on the state alone, and the blocker names the first of three reasons. */
  lemma ModeAndBlockerRules(item: Item, cost: seq<Cost>)
    ensures var mode, s := InferMode(item), item.state;
            && (mode == DeliveredMode <==> IsDone(item))
            && (mode == RecoveryMode <==> !IsDone(item) && s.Some? && (s.value.paused || s.value.globalVerdict == Some("FAIL")))
            && (!IsDone(item) && mode != RecoveryMode ==>
                  && (mode == PlanMode <==> s.Some? && s.value.phase in {"PHASE_0_INTAKE", "PHASE_1_SPEC", "PHASE_3_DECOMPOSE"})
                  && (mode == ReviewMode <==>
                        s.Some? && s.value.phase in {"PHASE_2_REVIEW", "PHASE_6_CONVERGE", "PHASE_7_GLOBAL_REVIEW"}))
    ensures var blocker := InferBlocker(item, CostByIssue(cost));
            && (blocker == Some("Cost guard") <==> OverBudget(item.issue.id, cost))
            && (blocker.None? <==> !IsHeldUp(item, cost))
            && (IsHeldUp(item, cost) && !OverBudget(item.issue.id, cost) ==>
                  blocker == Some(if item.state.value.paused then "Paused" else "Global " + item.state.value.globalVerdict.value))
  {
    TrippedIff(item, cost);
    if item.state.Some? && item.state.value.globalVerdict.Some? {
      assert ("Global " + item.state.value.globalVerdict.value)[0] == 'G' && "Cost guard"[0] == 'C' && "Paused"[0] == 'P';
    }
  }

  const PRIORITIES: seq<string> := ["P0", "P1", "P2", "P3"]

  /** P0 comes before P1, that before P2 and that before P3, any other priority comes last, and within one the title decides. */
  lemma CardsByPriority(collate: (string, string) -> bool, a: Card, b: Card)
    requires collate(a.title, b.title) || collate(b.title, a.title)
    ensures forall i, j :: 0 <= i < j < 4 && a.priority == PRIORITIES[i] && b.priority == PRIORITIES[j]
              ==> CardOrder(collate)(a, b) && !CardOrder(collate)(b, a)
    ensures a.priority in PRIORITIES && b.priority !in PRIORITIES ==> CardOrder(collate)(a, b) && !CardOrder(collate)(b, a)
    ensures (a.priority == b.priority || (a.priority !in PRIORITIES && b.priority !in PRIORITIES))
              ==> (CardOrder(collate)(a, b) <==> collate(a.title, b.title))
  {
    assert PRIORITIES[0] == "P0" && PRIORITIES[1] == "P1" && PRIORITIES[2] == "P2" && PRIORITIES[3] == "P3";
    RankIff(a.priority);
    RankIff(b.priority);
    assert On(RankOf, Ascending())(a, b) == (PriorityRank(a.priority) <= PriorityRank(b.priority));
    assert On(RankOf, Ascending())(b, a) == (PriorityRank(b.priority) <= PriorityRank(a.priority));
    assert On(TitleOf, collate)(a, b) == collate(a.title, b.title);
  }

  lemma RankIff(priority: string)
    ensures forall i :: 0 <= i < 4 ==> (priority == PRIORITIES[i] <==> PriorityRank(priority) == i)
    ensures priority in PRIORITIES <==> PriorityRank(priority) < 4
    ensures priority !in PRIORITIES ==> PriorityRank(priority) == 99
  {
    assert PRIORITIES[0] == "P0" && PRIORITIES[1] == "P1" && PRIORITIES[2] == "P2" && PRIORITIES[3] == "P3";
  }

  /** The column of a loop holds a card with its id, title and priority, and the mode, gate and blocker of the rules. */
  lemma CardShowsItsLoop(item: Item, costs: map<string, Cost>, collate: (string, string) -> bool, items: seq<Item>)
    requires item in items
    ensures exists card :: card in SortedColumn(items, costs, collate)(InferBoardColumn(item, costs)).items
              && card.id == item.issue.id && card.title == item.issue.title && card.priority == item.issue.priority
              && card.mode == InferMode(item) && card.humanGate == InferHumanGate(item, costs) && card.blocker == InferBlocker(item, costs)
  {
    var id := InferBoardColumn(item, costs);
    var group, card := Of(items, ColumnFor(costs), id), CardFor(costs)(item);
    OfMember(items, ColumnFor(costs), id, item);
    var k :| 0 <= k < |group| && group[k] == item;
    assert CardsIn(items, costs, id)[k] == card;
    SortedIsPermutation(CardsIn(items, costs, id), CardOrder(collate));
    assert card in multiset(CardsIn(items, costs, id));
    assert card in multiset(Sorted(CardsIn(items, costs, id), CardOrder(collate)));
  }
}
