/** The health of the fleet: active and blocked loops, and their counts by repository. */
module LoopFleet {
  import opened Ecma
  import opened StableSort
  import opened GroupBy
  import opened LoopsDashboard
  import opened LoopAggregates

  predicate IsActive(item: Item) {
    item.issue.status !in {"CLOSED", "ARCHIVED", "REJECTED"}
  }

  function StuckWith(costs: map<string, Cost>): Item -> bool {
    (item: Item) => Stuck(item, costs)
  }

  function Active(items: seq<Item>): seq<Item> {
    Of(items, IsActive, true)
  }

  function BlockedLoops(items: seq<Item>, costs: map<string, Cost>): seq<Item> {
    Of(Active(items), StuckWith(costs), true)
  }

  /** The loop has the id of a blocked one. */
  function SharesIdWith(blocked: seq<Item>): Item -> bool {
    (item: Item) => exists b :: b in blocked && b.issue.id == item.issue.id
  }

  datatype Fleet = Fleet(active: nat, blocked: nat)

  function FleetBy(shares: Item -> bool): seq<Item> -> Fleet {
    (group: seq<Item>) => Fleet(|group|, Count(group, shares))
  }

  datatype FleetRow = FleetRow(repo: string, active: nat, blocked: nat)

  function ActiveIn(r: FleetRow): int {
    r.active
  }

  function BlockedIn(r: FleetRow): int {
    r.blocked
  }

  function FleetRowBy(active: seq<Item>, shares: Item -> bool): string -> FleetRow {
    (repo: string) => FleetRow(repo, |Of(active, RepoOf, repo)|, CountOf(active, RepoOf, shares)(repo))
  }

  /** The direct form of the breakdown: by the number of active loops, descending. */
  function FleetRows(active: seq<Item>, blocked: seq<Item>): seq<FleetRow> {
    Sorted(Mapped(Keys(active, RepoOf), FleetRowBy(active, SharesIdWith(blocked))), Reversed(On(ActiveIn, Ascending())))
  }

  /** One pass of the loop, on the entry that was found or on an empty one. */
  method CountLoop(existing: Fleet, item: Item, shares: Item -> bool, ghost group: seq<Item>) returns (r: Fleet)
    requires existing == Fleet(|group|, Count(group, shares))
    ensures r == FleetBy(shares)(group + [item])
  {
    assert (group + [item])[..|group|] == group;
    r := existing.(active := existing.active + 1);
    if shares(item) {
      r := r.(blocked := r.blocked + 1);
    }
  }

  method CountFleet(active: seq<Item>, shares: Item -> bool) returns (repoMap: Table<string, Fleet>)
    ensures repoMap == Grouped(active, RepoOf, FleetBy(shares))
  {
    repoMap := Table([], map[]);
    for i := 0 to |active|
      invariant repoMap == Grouped(active[..i], RepoOf, FleetBy(shares))
    {
      var repo := RepoOf(active[i]);
      GroupedNext(active, i, RepoOf, FleetBy(shares));
      var existing := Fleet(0, 0);
      if repo in repoMap.at { existing := repoMap.at[repo]; }
      var counted := CountLoop(existing, active[i], shares, Of(active[..i], RepoOf, repo));
      repoMap := repoMap.Set(repo, counted);
    }
    assert active[..|active|] == active;
  }

  method BuildFleetHealth(items: seq<Item>, cost: seq<Cost>) returns (activeLoops: nat, blockedLoops: nat, repoBreakdown: seq<FleetRow>)
    ensures activeLoops == |Active(items)| && blockedLoops == |BlockedLoops(items, CostByIssue(cost))|
    ensures repoBreakdown == FleetRows(Active(items), BlockedLoops(items, CostByIssue(cost)))
  {
    var active := Active(items);
    var blocked := BlockedLoops(items, CostByIssue(cost));
    var repoMap := CountFleet(active, SharesIdWith(blocked));
    repoBreakdown := ListFleet(active, SharesIdWith(blocked), repoMap);
    repoBreakdown := Sorted(repoBreakdown, Reversed(On(ActiveIn, Ascending())));
    activeLoops, blockedLoops := |active|, |blocked|;
  }

  method ListFleet(active: seq<Item>, shares: Item -> bool, repoMap: Table<string, Fleet>) returns (rows: seq<FleetRow>)
    requires repoMap == Grouped(active, RepoOf, FleetBy(shares))
    ensures rows == Mapped(repoMap.keys, FleetRowBy(active, shares))
  {
    rows := [];
    for i := 0 to |repoMap.keys|
      invariant rows == Mapped(repoMap.keys[..i], FleetRowBy(active, shares))
    {
      var repo := repoMap.keys[i];
      assert repo in repoMap.keys && repoMap.at[repo] == FleetBy(shares)(Of(active, RepoOf, repo));
      var data := repoMap.at[repo];
      MappedNext(repoMap.keys, i, FleetRowBy(active, shares));
      FleetRowCounts(active, shares, repo);
      rows := rows + [FleetRow(repo, data.active, data.blocked)];
    }
    assert repoMap.keys[..|repoMap.keys|] == repoMap.keys;
  }

  lemma FleetRowCounts(active: seq<Item>, shares: Item -> bool, repo: string)
    ensures var row := FleetRowBy(active, shares)(repo);
            && row.repo == repo
            && ActiveIn(row) == |Of(active, RepoOf, repo)|
            && BlockedIn(row) == CountOf(active, RepoOf, shares)(repo) == Count(Of(active, RepoOf, repo), shares)
  {
  }

  /** The active loops of the repositories add up to all active loops. */
  lemma ActiveAddUp(active: seq<Item>, blocked: seq<Item>)
    ensures Sum(FleetRows(active, blocked), ActiveIn) == |active|
  {
    var keys, row := Keys(active, RepoOf), FleetRowBy(active, SharesIdWith(blocked));
    var size := (k: string) => |Of(active, RepoOf, k)| as int;
    SortedSum(Mapped(keys, row), Reversed(On(ActiveIn, Ascending())), ActiveIn);
    forall k ensures ActiveIn(row(k)) == size(k) {
      FleetRowCounts(active, SharesIdWith(blocked), k);
    }
    MappedSum(keys, row, ActiveIn, size);
    TotalOfGroups(active, RepoOf, size);
  }

  lemma SharersAddUp(active: seq<Item>, blocked: seq<Item>)
    ensures Sum(FleetRows(active, blocked), BlockedIn) == Count(active, SharesIdWith(blocked))
  {
    var keys, row := Keys(active, RepoOf), FleetRowBy(active, SharesIdWith(blocked));
    SortedSum(Mapped(keys, row), Reversed(On(ActiveIn, Ascending())), BlockedIn);
    forall k ensures BlockedIn(row(k)) == CountOf(active, RepoOf, SharesIdWith(blocked))(k) {
      FleetRowCounts(active, SharesIdWith(blocked), k);
    }
    MappedSum(keys, row, BlockedIn, CountOf(active, RepoOf, SharesIdWith(blocked)));
    CountsAddUp(active, RepoOf, SharesIdWith(blocked));
  }

  /** Where one condition implies another it holds less often, and equally often only if they agree on every element. */
  lemma {:induction false} CountsCompare(s: seq<Item>, p: Item -> bool, q: Item -> bool)
    requires forall item :: item in s && p(item) ==> q(item)
    ensures Count(s, p) <= Count(s, q)
    ensures Count(s, p) == Count(s, q) <==> forall item :: item in s && q(item) ==> p(item)
    decreases |s|
  {
    if s != [] {
      var n := |s| - 1;
      assert s == s[..n] + [s[n]];
      assert forall item :: item in s <==> item in s[..n] || item == s[n];
      CountsCompare(s[..n], p, q);
    }
  }

  lemma {:induction false} FilterCounts(s: seq<Item>, p: Item -> bool)
    ensures |Of(s, p, true)| == Count(s, p)
    decreases |s|
  {
    if s != [] { FilterCounts(s[..|s| - 1], p); }
  }

  /** A blocked loop with the same id is among the active ones. */
  ghost predicate HasStuckTwin(active: seq<Item>, costs: map<string, Cost>, a: Item) {
    exists b :: b in active && Stuck(b, costs) && b.issue.id == a.issue.id
  }

  lemma SharersHaveStuckTwins(active: seq<Item>, costs: map<string, Cost>, a: Item)
    ensures SharesIdWith(Of(active, StuckWith(costs), true))(a) <==> HasStuckTwin(active, costs, a)
  {
    var blocked := Of(active, StuckWith(costs), true);
    forall b: Item ensures b in blocked <==> b in active && Stuck(b, costs) {
      OfMember(active, StuckWith(costs), true, b);
    }
  }

  /**
   The blocked loops of the repositories are never fewer than the blocked loops, and add up to exactly those if and
   only if every active loop that has the id of a blocked one is blocked itself; unique ids are enough for that.
   */
  lemma BlockedAddUpIff(items: seq<Item>, costs: map<string, Cost>)
    ensures var active, blocked := Active(items), BlockedLoops(items, costs);
            var total := Sum(FleetRows(active, blocked), BlockedIn);
            && total >= |blocked|
            && (total == |blocked| <==> forall a :: a in active && HasStuckTwin(active, costs, a) ==> Stuck(a, costs))
  {
    var active, blocked := Active(items), BlockedLoops(items, costs);
    SharersAddUp(active, blocked);
    SharersAreBlockedIff(active, costs, StuckWith(costs), SharesIdWith(blocked));
  }

  lemma SharersAreBlockedIff(active: seq<Item>, costs: map<string, Cost>, stuck: Item -> bool, shares: Item -> bool)
    requires stuck == StuckWith(costs) && shares == SharesIdWith(Of(active, stuck, true))
    ensures Count(active, shares) >= |Of(active, stuck, true)|
    ensures Count(active, shares) == |Of(active, stuck, true)|
       <==> forall a :: a in active && HasStuckTwin(active, costs, a) ==> Stuck(a, costs)
  {
    FilterCounts(active, stuck);
    forall a ensures stuck(a) == Stuck(a, costs) && shares(a) == HasStuckTwin(active, costs, a) {
      SharersHaveStuckTwins(active, costs, a);
    }
    CountsCompare(active, stuck, shares);
  }

  // The numbers, in terms of the loops as they come in.

  /** Neither closed nor archived nor rejected. */
  predicate IsGoingOn(item: Item) {
    item.issue.status != "CLOSED" && item.issue.status != "ARCHIVED" && item.issue.status != "REJECTED"
  }

  ghost function HeldUp(cost: seq<Cost>): Item -> bool {
    (item: Item) => IsGoingOn(item) && IsHeldUp(item, cost)
  }

  function GoingOnIn(repo: string): Item -> bool {
    (item: Item) => IsGoingOn(item) && InRepo(repo)(item)
  }

  /** In the repository, going on, and with the id of a loop that is going on and held up. */
  ghost function SharesHeldUpIn(repo: string, items: seq<Item>, cost: seq<Cost>): Item -> bool {
    (item: Item) => GoingOnIn(repo)(item) && exists b :: b in items && HeldUp(cost)(b) && b.issue.id == item.issue.id
  }

  lemma HeldUpIff(item: Item, cost: seq<Cost>)
    ensures IsActive(item) <==> IsGoingOn(item)
    ensures Stuck(item, CostByIssue(cost)) <==> IsHeldUp(item, cost)
  {
    TrippedIff(item, cost);
  }

  /** The summary counts the loops that are going on, and those of them that are held up. */
  lemma FleetCounts(items: seq<Item>, cost: seq<Cost>)
    ensures |Active(items)| == Count(items, IsGoingOn)
    ensures |BlockedLoops(items, CostByIssue(cost))| == Count(items, HeldUp(cost))
  {
    var costs := CostByIssue(cost);
    FilterCounts(items, IsActive);
    FilterCounts(Active(items), StuckWith(costs));
    forall item: Item ensures IsActive(item) <==> IsGoingOn(item) { HeldUpIff(item, cost); }
    SameCount(items, IsActive, IsGoingOn);
    forall item: Item ensures HeldUp(cost)(item) <==> IsActive(item) == true && StuckWith(costs)(item) { HeldUpIff(item, cost); }
    CountInGroup(items, IsActive, true, StuckWith(costs), HeldUp(cost));
  }

  lemma {:induction false} SameCount(items: seq<Item>, p: Item -> bool, q: Item -> bool)
    requires forall item :: p(item) <==> q(item)
    ensures Count(items, p) == Count(items, q)
    decreases |items|
  {
    if items != [] { SameCount(items[..|items| - 1], p, q); }
  }

  lemma ActiveMember(items: seq<Item>, item: Item)
    ensures item in Active(items) <==> item in items && IsGoingOn(item)
  {
    OfMember(items, IsActive, true, item);
  }

  lemma SharesIff(items: seq<Item>, cost: seq<Cost>, item: Item)
    ensures SharesIdWith(BlockedLoops(items, CostByIssue(cost)))(item)
       <==> exists b :: b in items && HeldUp(cost)(b) && b.issue.id == item.issue.id
  {
    forall b: Item ensures b in BlockedLoops(items, CostByIssue(cost)) <==> b in items && HeldUp(cost)(b) {
      OfMember(Active(items), StuckWith(CostByIssue(cost)), true, b);
      ActiveMember(items, b);
      HeldUpIff(b, cost);
    }
  }

  /** A row of the breakdown counts the loops of its repository that are going on, and those that share an id with a held up one. */
  lemma FleetRowTells(items: seq<Item>, cost: seq<Cost>, repo: string)
    ensures var row := FleetRowBy(Active(items), SharesIdWith(BlockedLoops(items, CostByIssue(cost))))(repo);
            row.repo == repo && row.active == Count(items, GoingOnIn(repo)) && row.blocked == Count(items, SharesHeldUpIn(repo, items, cost))
  {
    var active, shares := Active(items), SharesIdWith(BlockedLoops(items, CostByIssue(cost)));
    var group := Of(active, RepoOf, repo);
    FleetRowCounts(active, shares, repo);
    CountAll(group);
    CountInActive(items, repo, All, GoingOnIn(repo));
    forall item: Item ensures SharesHeldUpIn(repo, items, cost)(item) <==> GoingOnIn(repo)(item) && shares(item) {
      SharesIff(items, cost, item);
    }
    CountInActive(items, repo, shares, SharesHeldUpIn(repo, items, cost));
  }

  lemma CountInActive(items: seq<Item>, repo: string, p: Item -> bool, q: Item -> bool)
    requires forall item :: q(item) <==> GoingOnIn(repo)(item) && p(item)
    ensures Count(Of(Active(items), RepoOf, repo), p) == Count(items, q)
  {
    var inRepo := (item: Item) => InRepo(repo)(item) && p(item);
    forall item: Item ensures inRepo(item) <==> RepoOf(item) == repo && p(item) { InRepoIff(item, repo); }
    CountInGroup(Active(items), RepoOf, repo, p, inRepo);
    CountInGroup(items, IsActive, true, inRepo, q);
  }

  /** The breakdown comes by the number of loops that are going on. */
  lemma FleetInOrder(active: seq<Item>, blocked: seq<Item>, i: nat, j: nat)
    requires i < j < |FleetRows(active, blocked)|
    ensures FleetRows(active, blocked)[i].active >= FleetRows(active, blocked)[j].active
  {
    OnIsConsistent(ActiveIn, Ascending());
    ReversedIsConsistent(On(ActiveIn, Ascending()));
    SortedInOrder(Mapped(Keys(active, RepoOf), FleetRowBy(active, SharesIdWith(blocked))), Reversed(On(ActiveIn, Ascending())));
    var rows := FleetRows(active, blocked);
    assert Reversed(On(ActiveIn, Ascending()))(rows[i], rows[j]);
  }
}
