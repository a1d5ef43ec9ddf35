/** The dashboard's counts by source and by repository. */
module LoopAggregates {
  import opened Ecma
  import opened StableSort
  import opened GroupBy
  import opened LoopsDashboard

  /** The greatest date of a group, in the order of strings. */
  function Latest(group: seq<Item>, date: Item -> string): string {
    if group == [] then "" else
      var n := |group| - 1;
      if n == 0 || !AtMost(date(group[n]), Latest(group[..n], date)) then date(group[n]) else Latest(group[..n], date)
  }

  lemma {:induction false} LatestIsMaximum(group: seq<Item>, date: Item -> string)
    requires group != []
    ensures exists i :: 0 <= i < |group| && date(group[i]) == Latest(group, date)
    ensures forall i :: 0 <= i < |group| ==> AtMost(date(group[i]), Latest(group, date))
    decreases |group|
  {
    var n := |group| - 1;
    AtMostIsTotal(date(group[n]), date(group[n]));
    if n > 0 {
      var previous := Latest(group[..n], date);
      LatestIsMaximum(group[..n], date);
      var k :| 0 <= k < n && date(group[..n][k]) == previous;
      assert date(group[k]) == previous;
      AtMostIsTotal(date(group[n]), previous);
      forall i | 0 <= i < n && !AtMost(date(group[n]), previous) ensures AtMost(date(group[i]), date(group[n])) {
        assert AtMost(date(group[..n][i]), previous);
        AtMostIsTransitive(date(group[i]), previous, date(group[n]));
      }
      forall i | 0 <= i < n ensures AtMost(date(group[i]), previous) {
        assert AtMost(date(group[..n][i]), previous);
      }
    }
  }

  predicate All(item: Item) {
    true
  }

  lemma {:induction false} CountAll(group: seq<Item>)
    ensures Count(group, All) == |group|
    decreases |group|
  {
    if group != [] { CountAll(group[..|group| - 1]); }
  }

  lemma TotalOfGroups(items: seq<Item>, key: Item -> string, f: string -> int)
    requires forall k :: f(k) == |Of(items, key, k)|
    ensures Total(Keys(items, key), f) == |items|
  {
    CountsAddUp(items, key, All);
    CountAll(items);
    forall k ensures f(k) == CountOf(items, key, All)(k) {
      CountAll(Of(items, key, k));
    }
    SameTotal(Keys(items, key), f, CountOf(items, key, All));
  }

  lemma {:induction false} SameTotal(keys: seq<string>, f: string -> int, g: string -> int)
    requires forall k :: f(k) == g(k)
    ensures Total(keys, f) == Total(keys, g)
    decreases |keys|
  {
    if keys != [] { SameTotal(keys[..|keys| - 1], f, g); }
  }

  // The trigger portfolio.

  datatype Source = Source(id: string, count: nat, latest: string)

  function SourceOf(item: Item): string {
    item.issue.sourceChannel + "/" + item.issue.sourceKind
  }

  function Created(item: Item): string {
    item.issue.created
  }

  function Updated(item: Item): string {
    item.issue.updated
  }

  /** How often and how lately a source triggered a loop. */
  datatype Activity = Activity(count: nat, latest: string)

  function ActivityOf(group: seq<Item>): Activity {
    Activity(|group|, Latest(group, Created))
  }

  function SourceRow(items: seq<Item>): string -> Source {
    (id: string) => Source(id, |Of(items, SourceOf, id)|, Latest(Of(items, SourceOf, id), Created))
  }

  function CountIn(r: Source): int {
    r.count
  }

  function LatestIn(r: Source): string {
    r.latest
  }

  function IdOf(r: Source): string {
    r.id
  }

  /** By count and then by date, both descending, and then by id. */
  function SourceOrder(collate: (string, string) -> bool): (Source, Source) -> bool {
    Then(Reversed(On(CountIn, Ascending())), Then(Reversed(On(LatestIn, collate)), On(IdOf, collate)))
  }

  /** An entry of the map of sources, one loop further. */
  method CountSource(sourceMap: Table<string, Activity>, id: string, created: string) returns (counted: Activity)
    ensures id !in sourceMap.at ==> counted == Activity(1, created)
    ensures id in sourceMap.at ==> var previous := sourceMap.at[id];
      counted == Activity(previous.count + 1, if !AtMost(created, previous.latest) then created else previous.latest)
  {
    if id !in sourceMap.at || !AtMost(created, sourceMap.at[id].latest) {
      var count := if id in sourceMap.at then sourceMap.at[id].count else 0;
      counted := Activity(count + 1, created);
    } else {
      var previous := sourceMap.at[id];
      counted := previous.(count := previous.count + 1);
    }
  }

  lemma ActivityNext(group: seq<Item>, item: Item)
    ensures ActivityOf(group + [item]) ==
      Activity(|group| + 1, if group == [] || !AtMost(Created(item), Latest(group, Created)) then Created(item) else Latest(group, Created))
  {
    assert (group + [item])[..|group|] == group;
  }

  function TargetRepo(item: Item): string {
    item.issue.targetRepo
  }

  function Targets(items: seq<Item>): set<string> {
    set item | item in items :: TargetRepo(item)
  }

  lemma TargetsNext(items: seq<Item>, i: nat)
    requires i < |items|
    ensures Targets(items[..i + 1]) == Targets(items[..i]) + {TargetRepo(items[i])}
  {
    assert items[..i + 1] == items[..i] + [items[i]];
    forall item: Item ensures item in items[..i + 1] <==> item in items[..i] || item == items[i] {
    }
    assert items[i] in items[..i + 1];
  }

  method CountSources(items: seq<Item>) returns (sourceMap: Table<string, Activity>, repos: set<string>)
    ensures sourceMap == Grouped(items, SourceOf, ActivityOf)
    ensures repos == Targets(items)
  {
    sourceMap, repos := Table([], map[]), {};
    for i := 0 to |items|
      invariant sourceMap == Grouped(items[..i], SourceOf, ActivityOf)
      invariant repos == Targets(items[..i])
    {
      var id := SourceOf(items[i]);
      GroupedNext(items, i, SourceOf, ActivityOf);
      ActivityNext(Of(items[..i], SourceOf, id), items[i]);
      var counted := CountSource(sourceMap, id, items[i].issue.created);
      sourceMap := sourceMap.Set(id, counted);
      TargetsNext(items, i);
      repos := repos + {items[i].issue.targetRepo};
    }
    assert items[..|items|] == items;
  }

  method ListSources(items: seq<Item>, sourceMap: Table<string, Activity>) returns (sources: seq<Source>)
    requires sourceMap == Grouped(items, SourceOf, ActivityOf)
    ensures sources == Mapped(Keys(items, SourceOf), SourceRow(items))
  {
    sources := [];
    for i := 0 to |sourceMap.keys|
      invariant sources == Mapped(sourceMap.keys[..i], SourceRow(items))
    {
      var id := sourceMap.keys[i];
      assert id in sourceMap.keys && sourceMap.at[id] == ActivityOf(Of(items, SourceOf, id));
      MappedNext(sourceMap.keys, i, SourceRow(items));
      sources := sources + [Source(id, sourceMap.at[id].count, sourceMap.at[id].latest)];
    }
    assert sourceMap.keys[..|sourceMap.keys|] == sourceMap.keys;
  }

  function FirstFive(items: seq<Item>): seq<Item> {
    if |items| <= 5 then items else items[..5]
  }

  /** The sources, the number of repositories and the five loops created last. */
  method BuildTriggerPortfolio(items: seq<Item>, collate: (string, string) -> bool)
    returns (sources: seq<Source>, repos: nat, recent: seq<Item>)
    ensures sources == Sorted(Mapped(Keys(items, SourceOf), SourceRow(items)), SourceOrder(collate))
    ensures repos == |set item | item in items :: item.issue.targetRepo|
    ensures recent == FirstFive(Sorted(items, Reversed(On(Created, collate))))
  {
    var sourceMap, targets := CountSources(items);
    sources := ListSources(items, sourceMap);
    sources := Sorted(sources, SourceOrder(collate));
    assert targets == set item | item in items :: item.issue.targetRepo;
    repos := |targets|;
    recent := FirstFive(Sorted(items, Reversed(On(Created, collate))));
  }

  /** No loop left out of the recent ones was created after one of them. */
  lemma RecentAreLatest(items: seq<Item>, collate: (string, string) -> bool, i: nat, j: nat)
    requires IsConsistent(collate) && i < 5 <= j < |items|
    ensures var sorted := Sorted(items, Reversed(On(Created, collate)));
            |sorted| == |items| && FirstFive(sorted)[i] == sorted[i] && collate(Created(sorted[j]), Created(sorted[i]))
  {
    var leq := Reversed(On(Created, collate));
    OnIsConsistent(Created, collate);
    ReversedIsConsistent(On(Created, collate));
    SortedInOrder(items, leq);
    SortedIsPermutation(items, leq);
    assert |multiset(Sorted(items, leq))| == |Sorted(items, leq)| && |multiset(items)| == |items|;
    assert leq(Sorted(items, leq)[i], Sorted(items, leq)[j]);
  }

  /** The counts of the sources add up to the number of loops. */
  lemma SourcesAddUp(items: seq<Item>, collate: (string, string) -> bool)
    ensures Sum(Sorted(Mapped(Keys(items, SourceOf), SourceRow(items)), SourceOrder(collate)), CountIn) == |items|
  {
    var keys, size := Keys(items, SourceOf), (k: string) => |Of(items, SourceOf, k)|;
    SortedSum(Mapped(keys, SourceRow(items)), SourceOrder(collate), CountIn);
    MappedSum(keys, SourceRow(items), CountIn, size);
    TotalOfGroups(items, SourceOf, size);
  }

  lemma ThreeKeysAreConsistent<R(!new)>(count: R -> int, date: R -> string, name: R -> string, collate: (string, string) -> bool)
    requires IsConsistent(collate)
    ensures IsConsistent(Then(Reversed(On(count, Ascending())), Then(Reversed(On(date, collate)), On(name, collate))))
  {
    OnIsConsistent(count, Ascending());
    ReversedIsConsistent(On(count, Ascending()));
    OnIsConsistent(date, collate);
    ReversedIsConsistent(On(date, collate));
    OnIsConsistent(name, collate);
    ThenIsConsistent(Reversed(On(date, collate)), On(name, collate));
    ThenIsConsistent(Reversed(On(count, Ascending())), Then(Reversed(On(date, collate)), On(name, collate)));
  }

  lemma CountDescends<R(!new)>(rows: seq<R>, count: R -> int, second: (R, R) -> bool, i: nat, j: nat)
    requires IsSorted(rows, Then(Reversed(On(count, Ascending())), second)) && i < j < |rows|
    ensures count(rows[i]) >= count(rows[j])
  {
    var first, a, b := Reversed(On(count, Ascending())), rows[i], rows[j];
    assert Then(first, second)(a, b);
    assert first(a, b) == On(count, Ascending())(b, a) == (count(b) <= count(a));
    assert first(b, a) == On(count, Ascending())(a, b) == (count(a) <= count(b));
  }

  lemma TiesByDateAndName<R(!new)>(
    rows: seq<R>, count: R -> int, date: R -> string, name: R -> string, collate: (string, string) -> bool, i: nat, j: nat)
    requires IsSorted(rows, Then(Reversed(On(count, Ascending())), Then(Reversed(On(date, collate)), On(name, collate))))
    requires IsConsistent(collate) && i < j < |rows|
    ensures var a, b := rows[i], rows[j];
            && count(a) >= count(b)
            && (count(a) == count(b) ==>
                  collate(date(b), date(a)) && (collate(date(a), date(b)) ==> collate(name(a), name(b))))
  {
    var first, second, third := Reversed(On(count, Ascending())), Reversed(On(date, collate)), On(name, collate);
    var a, b := rows[i], rows[j];
    CountDescends(rows, count, Then(second, third), i, j);
    assert Then(first, Then(second, third))(a, b);
    assert first(a, b) == (count(b) <= count(a)) && first(b, a) == (count(a) <= count(b));
    assert second(a, b) == collate(date(b), date(a)) && second(b, a) == collate(date(a), date(b));
    assert third(a, b) == collate(name(a), name(b));
    if count(a) == count(b) {
      assert Then(second, third)(a, b);
      assert !second(b, a) || (second(a, b) && third(a, b));
    }
  }

  /** The sources come by count, then by date, both descending, and then by id. */
  lemma SourcesInOrder(items: seq<Item>, collate: (string, string) -> bool, i: nat, j: nat)
    requires IsConsistent(collate)
    requires i < j < |Sorted(Mapped(Keys(items, SourceOf), SourceRow(items)), SourceOrder(collate))|
    ensures var sources := Sorted(Mapped(Keys(items, SourceOf), SourceRow(items)), SourceOrder(collate));
            && sources[i].count >= sources[j].count
            && (sources[i].count == sources[j].count ==>
                  && collate(sources[j].latest, sources[i].latest)
                  && (collate(sources[i].latest, sources[j].latest) ==> collate(sources[i].id, sources[j].id)))
  {
    var rows := Mapped(Keys(items, SourceOf), SourceRow(items));
    ThreeKeysAreConsistent(CountIn, LatestIn, IdOf, collate);
    SortedInOrder(rows, SourceOrder(collate));
    TiesByDateAndName(Sorted(rows, SourceOrder(collate)), CountIn, LatestIn, IdOf, collate, i, j);
  }

  /** Every loop has its source in the list of sources, and every source is there once. */
  lemma SourcesAreListedOnce(items: seq<Item>)
    ensures Distinct(Keys(items, SourceOf)) && forall i :: 0 <= i < |items| ==> SourceOf(items[i]) in Keys(items, SourceOf)
  {
    KeysAreDistinct(items, SourceOf);
    forall i | 0 <= i < |items| ensures SourceOf(items[i]) in Keys(items, SourceOf) {
      OfMember(items, SourceOf, SourceOf(items[i]), items[i]);
      GroupOfKey(items, SourceOf, SourceOf(items[i]));
    }
  }

  // The repositories.

  function RepoOf(item: Item): string {
    if item.issue.targetRepo == "" then "unassigned" else item.issue.targetRepo
  }

  /** What the repository view calls blocked. */
  predicate Halted(item: Item, costs: map<string, Cost>) {
    Paused(item) || Failed(item) || Tripped(item, costs)
  }

  /** What the board and the fleet view call blocked. */
  predicate Stuck(item: Item, costs: map<string, Cost>) {
    Paused(item) || Tripped(item, costs) || Refused(item)
  }

  /** The two notions differ on loops that are neither paused nor over their budget and have a verdict between PASS and FAIL. */
  lemma HaltedMeansStuck(item: Item, costs: map<string, Cost>)
    ensures Halted(item, costs) ==> Stuck(item, costs)
    ensures Stuck(item, costs) && !Halted(item, costs)
       <==> !Paused(item) && !Tripped(item, costs) && Refused(item) && item.state.value.globalVerdict.value != "FAIL"
  {
  }

  function HaltedWith(costs: map<string, Cost>): Item -> bool {
    (item: Item) => Halted(item, costs)
  }

  /** The label of the phase, or of the status where there is no state. */
  function PhaseBy(format: string -> string): Item -> string {
    (item: Item) => format(if item.state.Some? then item.state.value.phase else item.issue.status)
  }

  function Size(group: seq<Item>): nat {
    |group|
  }

  datatype Repo = Repo(issues: nat, blocked: nat, latest: string, phases: Table<string, nat>, recent: seq<Item>)

  /** The direct counts of one repository. */
  function RepoBy(costs: map<string, Cost>, format: string -> string): seq<Item> -> Repo {
    (group: seq<Item>) =>
      Repo(|group|, Count(group, HaltedWith(costs)), Latest(group, Updated), Grouped(group, PhaseBy(format), Size), group)
  }

  function Counted(phases: Table<string, nat>, phase: string): Table<string, nat> {
    phases.Set(phase, (if phase in phases.at then phases.at[phase] else 0) + 1)
  }

  lemma PhasesNext(group: seq<Item>, item: Item, key: Item -> string)
    ensures Grouped(group + [item], key, Size) == Counted(Grouped(group, key, Size), key(item))
  {
    var next := group + [item];
    assert next[..|group|] == group && next[..|group| + 1] == next;
    GroupedNext(next, |group|, key, Size);
  }

  /** The entry that the loop makes for a repository it meets for the first time. */
  function NewRepo(item: Item): Repo {
    Repo(0, 0, item.issue.updated, Table([], map[]), [])
  }

  /** An entry, one loop further. */
  function CountedRepo(entry: Repo, item: Item, blocked: bool, phase: string): Repo {
    Repo(
      entry.issues + 1,
      entry.blocked + if blocked then 1 else 0,
      if !AtMost(item.issue.updated, entry.latest) then item.issue.updated else entry.latest,
      Counted(entry.phases, phase),
      entry.recent + [item])
  }

  lemma RepoMore(group: seq<Item>, item: Item, costs: map<string, Cost>, format: string -> string)
    requires group != []
    ensures RepoBy(costs, format)(group + [item])
         == CountedRepo(RepoBy(costs, format)(group), item, Halted(item, costs), PhaseBy(format)(item))
  {
    assert (group + [item])[..|group|] == group;
    PhasesNext(group, item, PhaseBy(format));
  }

  lemma RepoFirst(item: Item, costs: map<string, Cost>, format: string -> string)
    ensures RepoBy(costs, format)([item]) == CountedRepo(NewRepo(item), item, Halted(item, costs), PhaseBy(format)(item))
  {
    var none: seq<Item> := [];
    assert [item][..0] == none && none + [item] == [item];
    AtMostIsTotal(item.issue.updated, item.issue.updated);
    PhasesNext(none, item, PhaseBy(format));
    NoPhases(none, PhaseBy(format));
    assert Count(none, HaltedWith(costs)) == 0;
  }

  lemma RepoNext(group: seq<Item>, item: Item, costs: map<string, Cost>, format: string -> string)
    ensures RepoBy(costs, format)(group + [item]) ==
      CountedRepo(if group == [] then NewRepo(item) else RepoBy(costs, format)(group), item, Halted(item, costs), PhaseBy(format)(item))
  {
    if group == [] {
      assert group + [item] == [item];
      RepoFirst(item, costs, format);
    } else {
      RepoMore(group, item, costs, format);
    }
  }

  lemma NoPhases(group: seq<Item>, key: Item -> string)
    requires group == []
    ensures Grouped(group, key, Size) == Table([], map[])
  {
    assert Grouped(group, key, Size).at == map[];
  }

  /** One pass of the loop, on the entry that was found or on a new one. */
  method CountRepo(existing: Repo, item: Item, costs: map<string, Cost>, format: string -> string) returns (r: Repo)
    ensures r == CountedRepo(existing, item, Halted(item, costs), PhaseBy(format)(item))
  {
    var blocked, phase := existing.blocked, PhaseBy(format)(item);
    if Halted(item, costs) { blocked := blocked + 1; }
    var latest := existing.latest;
    if !AtMost(item.issue.updated, latest) { latest := item.issue.updated; }
    var count := 0;
    if phase in existing.phases.at { count := existing.phases.at[phase]; }
    r := Repo(existing.issues + 1, blocked, latest, existing.phases.Set(phase, count + 1), existing.recent + [item]);
  }

  datatype PhaseCount = PhaseCount(phase: string, count: nat)

  datatype RepoRow = RepoRow(repo: string, issues: nat, blocked: nat, latest: string, phases: seq<PhaseCount>, recent: seq<Item>)

  /** By count, descending, and then by phase. */
  function PhaseOrder(collate: (string, string) -> bool): (PhaseCount, PhaseCount) -> bool {
    Then(Reversed(On((p: PhaseCount) => p.count, Ascending())), On((p: PhaseCount) => p.phase, collate))
  }

  /** By the last update, descending, and then by title. */
  function RecentOrder(collate: (string, string) -> bool): (Item, Item) -> bool {
    Then(Reversed(On(Updated, collate)), On((item: Item) => item.issue.title, collate))
  }

  function IssuesIn(r: RepoRow): int {
    r.issues
  }

  function BlockedIn(r: RepoRow): int {
    r.blocked
  }

  function LastUpdate(r: RepoRow): string {
    r.latest
  }

  function NameOf(r: RepoRow): string {
    r.repo
  }

  /** By the number of loops and the last update, both descending, and then by name. */
  function RepoOrder(collate: (string, string) -> bool): (RepoRow, RepoRow) -> bool {
    Then(Reversed(On(IssuesIn, Ascending())), Then(Reversed(On(LastUpdate, collate)), On(NameOf, collate)))
  }

  function PhaseRow(phases: Table<string, nat>): string -> PhaseCount {
    (phase: string) => PhaseCount(phase, if phase in phases.at then phases.at[phase] else 0)
  }

  function FirstThree(items: seq<Item>): seq<Item> {
    if |items| <= 3 then items else items[..3]
  }

  function RowFor(repo: string, entry: Repo, collate: (string, string) -> bool): RepoRow {
    RepoRow(
      repo, entry.issues, entry.blocked, entry.latest,
      Sorted(Mapped(entry.phases.keys, PhaseRow(entry.phases)), PhaseOrder(collate)),
      FirstThree(Sorted(entry.recent, RecentOrder(collate))))
  }

  function RepoRowBy(items: seq<Item>, costs: map<string, Cost>, format: string -> string, collate: (string, string) -> bool): string -> RepoRow {
    (repo: string) => RowFor(repo, RepoBy(costs, format)(Of(items, RepoOf, repo)), collate)
  }

  /** The direct form of the view. */
  function RepoRows(items: seq<Item>, costs: map<string, Cost>, format: string -> string, collate: (string, string) -> bool): seq<RepoRow> {
    Sorted(Mapped(Keys(items, RepoOf), RepoRowBy(items, costs, format, collate)), RepoOrder(collate))
  }

  method CountRepos(items: seq<Item>, costs: map<string, Cost>, format: string -> string) returns (repoMap: Table<string, Repo>)
    ensures repoMap == Grouped(items, RepoOf, RepoBy(costs, format))
  {
    repoMap := Table([], map[]);
    for i := 0 to |items|
      invariant repoMap == Grouped(items[..i], RepoOf, RepoBy(costs, format))
    {
      GroupedNext(items, i, RepoOf, RepoBy(costs, format));
      var repo := RepoOf(items[i]);
      var existing := NewRepo(items[i]);
      if repo in repoMap.at { existing := repoMap.at[repo]; }
      var counted := CountRepo(existing, items[i], costs, format);
      RepoNext(Of(items[..i], RepoOf, repo), items[i], costs, format);
      repoMap := repoMap.Set(repo, counted);
    }
    assert items[..|items|] == items;
  }

  /** The rows, and the total of their blocked loops. */
  method BuildRepoContextMap(items: seq<Item>, cost: seq<Cost>, format: string -> string, collate: (string, string) -> bool)
    returns (repos: seq<RepoRow>, blocked: int)
    ensures repos == RepoRows(items, CostByIssue(cost), format, collate)
    ensures blocked == Count(items, HaltedWith(CostByIssue(cost)))
  {
    var costs := CostByIssue(cost);
    var repoMap := CountRepos(items, costs, format);
    repos := [];
    for i := 0 to |repoMap.keys|
      invariant repos == Mapped(repoMap.keys[..i], RepoRowBy(items, costs, format, collate))
    {
      MappedNext(repoMap.keys, i, RepoRowBy(items, costs, format, collate));
      repos := repos + [RowFor(repoMap.keys[i], repoMap.at[repoMap.keys[i]], collate)];
    }
    assert repoMap.keys[..|repoMap.keys|] == repoMap.keys;
    repos := Sorted(repos, RepoOrder(collate));
    blocked := Sum(repos, BlockedIn);
    BlockedAddUp(items, costs, format, collate);
  }

  lemma RepoRowCounts(items: seq<Item>, costs: map<string, Cost>, format: string -> string, collate: (string, string) -> bool, repo: string)
    ensures var row := RepoRowBy(items, costs, format, collate)(repo);
            IssuesIn(row) == |Of(items, RepoOf, repo)| && BlockedIn(row) == CountOf(items, RepoOf, HaltedWith(costs))(repo)
  {
    var group := Of(items, RepoOf, repo);
    assert RepoRowBy(items, costs, format, collate)(repo) == RowFor(repo, RepoBy(costs, format)(group), collate);
  }

  /** The loops of the repositories add up to all loops. */
  lemma IssuesAddUp(items: seq<Item>, costs: map<string, Cost>, format: string -> string, collate: (string, string) -> bool)
    ensures Sum(RepoRows(items, costs, format, collate), IssuesIn) == |items|
  {
    var keys, row := Keys(items, RepoOf), RepoRowBy(items, costs, format, collate);
    var size := (k: string) => |Of(items, RepoOf, k)| as int;
    SortedSum(Mapped(keys, row), RepoOrder(collate), IssuesIn);
    forall k ensures IssuesIn(row(k)) == size(k) {
      RepoRowCounts(items, costs, format, collate, k);
    }
    MappedSum(keys, row, IssuesIn, size);
    TotalOfGroups(items, RepoOf, size);
  }

  /** The repositories come by their number of loops. */
  lemma ReposInOrder(items: seq<Item>, costs: map<string, Cost>, format: string -> string, collate: (string, string) -> bool, i: nat, j: nat)
    requires IsConsistent(collate) && i < j < |RepoRows(items, costs, format, collate)|
    ensures var rows := RepoRows(items, costs, format, collate);
            && rows[i].issues >= rows[j].issues
            && (rows[i].issues == rows[j].issues ==>
                  && collate(rows[j].latest, rows[i].latest)
                  && (collate(rows[i].latest, rows[j].latest) ==> collate(rows[i].repo, rows[j].repo)))
  {
    ThreeKeysAreConsistent(IssuesIn, LastUpdate, NameOf, collate);
    SortedInOrder(Mapped(Keys(items, RepoOf), RepoRowBy(items, costs, format, collate)), RepoOrder(collate));
    TiesByDateAndName(RepoRows(items, costs, format, collate), IssuesIn, LastUpdate, NameOf, collate, i, j);
  }

  /** And so do their blocked loops. */
  lemma BlockedAddUp(items: seq<Item>, costs: map<string, Cost>, format: string -> string, collate: (string, string) -> bool)
    ensures Sum(RepoRows(items, costs, format, collate), BlockedIn) == Count(items, HaltedWith(costs))
  {
    var keys, row := Keys(items, RepoOf), RepoRowBy(items, costs, format, collate);
    SortedSum(Mapped(keys, row), RepoOrder(collate), BlockedIn);
    forall k ensures BlockedIn(row(k)) == CountOf(items, RepoOf, HaltedWith(costs))(k) {
      RepoRowCounts(items, costs, format, collate, k);
    }
    MappedSum(keys, row, BlockedIn, CountOf(items, RepoOf, HaltedWith(costs)));
    CountsAddUp(items, RepoOf, HaltedWith(costs));
  }

  /** The phases of a repository add up to its loops. */
  lemma PhasesAddUp(group: seq<Item>, repo: string, costs: map<string, Cost>, format: string -> string, collate: (string, string) -> bool)
    ensures var row := RowFor(repo, RepoBy(costs, format)(group), collate);
            Sum(row.phases, (p: PhaseCount) => p.count) == row.issues
  {
    var key := PhaseBy(format);
    var phases := Grouped(group, key, Size);
    var f, g := (p: PhaseCount) => p.count as int, (k: string) => |Of(group, key, k)| as int;
    SortedSum(Mapped(phases.keys, PhaseRow(phases)), PhaseOrder(collate), f);
    MappedSum(phases.keys, PhaseRow(phases), f, g);
    TotalOfGroups(group, key, g);
  }

  // The rows, in terms of the loops as they come in.

  function FromSource(id: string): Item -> bool {
    (item: Item) => item.issue.sourceChannel + "/" + item.issue.sourceKind == id
  }

  function InRepo(repo: string): Item -> bool {
    (item: Item) => if item.issue.targetRepo == "" then repo == "unassigned" else item.issue.targetRepo == repo
  }

  /** In the repository, and paused, failed or over its budget. */
  ghost function HaltedIn(repo: string, cost: seq<Cost>): Item -> bool {
    (item: Item) => InRepo(repo)(item)
      && ((item.state.Some? && (item.state.value.paused || item.state.value.globalVerdict == Some("FAIL")))
          || OverBudget(item.issue.id, cost))
  }

  /** In the repository, and in the phase, or of the status where there is no state. */
  function InPhaseOf(repo: string, format: string -> string, phase: string): Item -> bool {
    (item: Item) => InRepo(repo)(item) && format(if item.state.Some? then item.state.value.phase else item.issue.status) == phase
  }

  lemma MembersOf(items: seq<Item>, key: Item -> string, k: string, p: Item -> bool, group: seq<Item>)
    requires group == Of(items, key, k) && forall item :: item in items ==> (p(item) <==> key(item) == k)
    ensures |group| == Count(items, p)
    ensures forall item :: item in group <==> item in items && p(item)
  {
    CountAll(group);
    CountInGroup(items, key, k, All, p);
    forall item: Item ensures item in group <==> item in items && p(item) { OfMember(items, key, k, item); }
  }

  /** The greatest date of the loops with the property. */
  ghost predicate IsLatestOf(items: seq<Item>, p: Item -> bool, date: Item -> string, latest: string) {
    && (exists item :: item in items && p(item) && date(item) == latest)
    && (forall item :: item in items && p(item) ==> AtMost(date(item), latest))
  }

  lemma LatestOfMembers(items: seq<Item>, p: Item -> bool, date: Item -> string, group: seq<Item>)
    requires group != [] && forall item :: item in group <==> item in items && p(item)
    ensures IsLatestOf(items, p, date, Latest(group, date))
  {
    LatestIsMaximum(group, date);
    var i :| 0 <= i < |group| && date(group[i]) == Latest(group, date);
    assert group[i] in group;
    forall item | item in items && p(item) ensures AtMost(date(item), Latest(group, date)) {
      assert item in group;
      var j :| 0 <= j < |group| && group[j] == item;
    }
  }

  /** A row of the sources has the number of its loops and the date of the one created last. */
  lemma SourceRowTells(items: seq<Item>, id: string)
    requires id in Keys(items, SourceOf)
    ensures var row := SourceRow(items)(id);
            row.id == id && row.count == Count(items, FromSource(id))
              && IsLatestOf(items, FromSource(id), (item: Item) => item.issue.created, row.latest)
  {
    var group := Of(items, SourceOf, id);
    GroupOfKey(items, SourceOf, id);
    MembersOf(items, SourceOf, id, FromSource(id), group);
    LatestOfMembers(items, FromSource(id), (item: Item) => item.issue.created, group);
    SameLatest(group, Created, (item: Item) => item.issue.created);
  }

  lemma {:induction false} SameLatest(group: seq<Item>, f: Item -> string, g: Item -> string)
    requires forall item :: f(item) == g(item)
    ensures Latest(group, f) == Latest(group, g)
    decreases |group|
  {
    if group != [] { SameLatest(group[..|group| - 1], f, g); }
  }

  /** The recent loops are those created last, by the creation dates themselves. */
  lemma RecentByCreation(items: seq<Item>, collate: (string, string) -> bool, i: nat, j: nat)
    requires IsConsistent(collate) && i < 5 <= j < |items|
    ensures var sorted := Sorted(items, Reversed(On(Created, collate)));
            |sorted| == |items| && FirstFive(sorted) == sorted[..5] && collate(sorted[j].issue.created, sorted[i].issue.created)
  {
    RecentAreLatest(items, collate, i, j);
    SortedIsPermutation(items, Reversed(On(Created, collate)));
  }

  lemma RepoGroup(items: seq<Item>, repo: string)
    requires repo in Keys(items, RepoOf)
    ensures var group := Of(items, RepoOf, repo);
            group != [] && |group| == Count(items, InRepo(repo)) && forall item :: item in group <==> item in items && InRepo(repo)(item)
  {
    GroupOfKey(items, RepoOf, repo);
    MembersOf(items, RepoOf, repo, InRepo(repo), Of(items, RepoOf, repo));
  }

  /** A row of the repositories has the number of its loops, that of the halted ones and the date of the last update. */
  lemma RepoRowTells(items: seq<Item>, cost: seq<Cost>, format: string -> string, collate: (string, string) -> bool, repo: string)
    requires repo in Keys(items, RepoOf)
    ensures var row := RepoRowBy(items, CostByIssue(cost), format, collate)(repo);
            && row.repo == repo && row.issues == Count(items, InRepo(repo)) && row.blocked == Count(items, HaltedIn(repo, cost))
            && IsLatestOf(items, InRepo(repo), (item: Item) => item.issue.updated, row.latest)
  {
    var group, costs := Of(items, RepoOf, repo), CostByIssue(cost);
    assert RepoRowBy(items, costs, format, collate)(repo) == RowFor(repo, RepoBy(costs, format)(group), collate);
    RepoGroup(items, repo);
    HaltedInGroup(items, cost, repo);
    LatestOfMembers(items, InRepo(repo), (item: Item) => item.issue.updated, group);
    SameLatest(group, Updated, (item: Item) => item.issue.updated);
  }

  lemma InRepoIff(item: Item, repo: string)
    ensures InRepo(repo)(item) <==> RepoOf(item) == repo
  {
  }

  lemma HaltedIff(item: Item, cost: seq<Cost>, repo: string)
    ensures HaltedIn(repo, cost)(item) <==> RepoOf(item) == repo && HaltedWith(CostByIssue(cost))(item)
  {
    TrippedIff(item, cost);
    InRepoIff(item, repo);
    assert HaltedWith(CostByIssue(cost))(item) == Halted(item, CostByIssue(cost));
  }

  lemma HaltedInGroup(items: seq<Item>, cost: seq<Cost>, repo: string)
    ensures Count(Of(items, RepoOf, repo), HaltedWith(CostByIssue(cost))) == Count(items, HaltedIn(repo, cost))
  {
    forall item: Item ensures HaltedIn(repo, cost)(item) <==> RepoOf(item) == repo && HaltedWith(CostByIssue(cost))(item) {
      HaltedIff(item, cost, repo);
    }
    CountInGroup(items, RepoOf, repo, HaltedWith(CostByIssue(cost)), HaltedIn(repo, cost));
  }

  /** Each phase of a repository has the number of its loops in that phase, and the phases come by that number. */
  lemma PhaseRowTells(items: seq<Item>, costs: map<string, Cost>, format: string -> string, collate: (string, string) -> bool, repo: string, i: nat)
    requires IsConsistent(collate) && i < |RepoRowBy(items, costs, format, collate)(repo).phases|
    ensures var phases := RepoRowBy(items, costs, format, collate)(repo).phases;
            && phases[i].count == Count(items, InPhaseOf(repo, format, phases[i].phase))
            && forall j :: 0 <= j < i ==> phases[j].count >= phases[i].count
  {
    var group := Of(items, RepoOf, repo);
    var table := Grouped(group, PhaseBy(format), Size);
    var rows := Mapped(table.keys, PhaseRow(table));
    var phases := Sorted(rows, PhaseOrder(collate));
    assert RepoRowBy(items, costs, format, collate)(repo) == RowFor(repo, RepoBy(costs, format)(group), collate);
    PhaseIsRow(table, collate, i);
    PhaseCounts(items, format, repo, phases[i].phase);
    PhaseOrderIsConsistent(collate);
    SortedInOrder(rows, PhaseOrder(collate));
    var count, second := (p: PhaseCount) => p.count, On((p: PhaseCount) => p.phase, collate);
    forall j | 0 <= j < i ensures phases[j].count >= phases[i].count {
      assert PhaseOrder(collate)(phases[j], phases[i]);
    }
  }

  lemma PhaseOrderIsConsistent(collate: (string, string) -> bool)
    requires IsConsistent(collate)
    ensures IsConsistent(PhaseOrder(collate))
  {
  }

  lemma PhaseIsRow(table: Table<string, nat>, collate: (string, string) -> bool, i: nat)
    requires i < |Sorted(Mapped(table.keys, PhaseRow(table)), PhaseOrder(collate))|
    ensures var p := Sorted(Mapped(table.keys, PhaseRow(table)), PhaseOrder(collate))[i];
            p.phase in table.keys && p == PhaseRow(table)(p.phase)
  {
    var rows := Mapped(table.keys, PhaseRow(table));
    var p := Sorted(rows, PhaseOrder(collate))[i];
    SortedIsPermutation(rows, PhaseOrder(collate));
    assert p in multiset(Sorted(rows, PhaseOrder(collate)));
    assert p in multiset(rows);
    var k :| 0 <= k < |rows| && rows[k] == p;
    assert table.keys[k] in table.keys;
  }

  lemma PhaseCounts(items: seq<Item>, format: string -> string, repo: string, phase: string)
    ensures |Of(Of(items, RepoOf, repo), PhaseBy(format), phase)| == Count(items, InPhaseOf(repo, format, phase))
  {
    var group := Of(items, RepoOf, repo);
    var p := (item: Item) => PhaseBy(format)(item) == phase;
    MembersOf(group, PhaseBy(format), phase, p, Of(group, PhaseBy(format), phase));
    forall item: Item ensures InPhaseOf(repo, format, phase)(item) <==> RepoOf(item) == repo && p(item) {
      InRepoIff(item, repo);
    }
    CountInGroup(items, RepoOf, repo, p, InPhaseOf(repo, format, phase));
  }

  /** The three recent loops of a repository are of it, and none left out was updated after one of them. */
  lemma RecentInRepo(items: seq<Item>, costs: map<string, Cost>, format: string -> string, collate: (string, string) -> bool, repo: string, a: Item, b: Item)
    requires IsConsistent(collate) && repo in Keys(items, RepoOf)
    requires a in RepoRowBy(items, costs, format, collate)(repo).recent
    ensures a in items && InRepo(repo)(a)
    ensures |RepoRowBy(items, costs, format, collate)(repo).recent| == Min(3, Count(items, InRepo(repo)))
    ensures b in items && InRepo(repo)(b) && b !in RepoRowBy(items, costs, format, collate)(repo).recent
            ==> collate(b.issue.updated, a.issue.updated)
  {
    var group := Of(items, RepoOf, repo);
    assert RepoRowBy(items, costs, format, collate)(repo) == RowFor(repo, RepoBy(costs, format)(group), collate);
    RepoGroup(items, repo);
    RecentOrderIsConsistent(collate);
    FirstThreeAreFirst(group, RecentOrder(collate), a, b);
    SortedIsPermutation(group, RecentOrder(collate));
    assert |multiset(Sorted(group, RecentOrder(collate)))| == |multiset(group)|;
  }

  lemma RecentOrderIsConsistent(collate: (string, string) -> bool)
    requires IsConsistent(collate)
    ensures IsConsistent(RecentOrder(collate))
    ensures forall a, b :: RecentOrder(collate)(a, b) ==> collate(b.issue.updated, a.issue.updated)
  {
    var title := (item: Item) => item.issue.title;
    OnIsConsistent(Updated, collate);
    ReversedIsConsistent(On(Updated, collate));
    OnIsConsistent(title, collate);
    ThenIsConsistent(Reversed(On(Updated, collate)), On(title, collate));
    forall a, b ensures RecentOrder(collate)(a, b) == Then(Reversed(On(Updated, collate)), On(title, collate))(a, b) {
    }
  }

  lemma FirstThreeAreFirst(group: seq<Item>, leq: (Item, Item) -> bool, a: Item, b: Item)
    requires IsConsistent(leq) && a in FirstThree(Sorted(group, leq))
    ensures a in group
    ensures b in group && b !in FirstThree(Sorted(group, leq)) ==> leq(a, b)
  {
    var sorted := Sorted(group, leq);
    SortedIsPermutation(group, leq);
    SortedInOrder(group, leq);
    assert a in multiset(sorted);
    assert a in multiset(group);
    if b in group && b !in FirstThree(sorted) {
      assert b in multiset(group);
      assert b in multiset(sorted);
      var j :| 0 <= j < |sorted| && sorted[j] == b;
      var i :| 0 <= i < |FirstThree(sorted)| && FirstThree(sorted)[i] == a;
      FirstThreeStays(sorted, j);
      assert leq(sorted[i], sorted[j]);
    }
  }

  lemma FirstThreeStays(sorted: seq<Item>, j: nat)
    requires j < |sorted|
    ensures |FirstThree(sorted)| == Min(3, |sorted|) && (sorted[j] !in FirstThree(sorted) ==> j >= 3)
  {
    if j < 3 { assert sorted[j] == FirstThree(sorted)[j]; }
  }
}
