/** Conservation in the usage report: whatever the shares, the groups, the
    qualities and the projects, the sums add up to the calls' own totals
    (internal/storage/sqlite/store.go). */
module UsageTotals {
  import opened Basics
  import opened Calls
  import opened Apportion
  import opened Usage
  import Allocations
  import AllocationProjection
  import AllocationRuns
  import AuditChain
  import Revisions
  import Sorting

  // ---- the joined query ---------------------------------------------------------------

  // Slugs by project id, and each call's allocation rows in ordinal order.
  datatype Tables = Tables(projects: map<string, string>, projection: map<string, seq<Allocations.Slot>>)

  datatype Part = Part(slug: string, points: Int64)

  const UNATTRIBUTED := "unattributed"

  function SlotsFor(t: Tables, call: string): seq<Allocations.Slot> {
    if call in t.projection then t.projection[call] else []
  }

  function SlugOr(t: Tables, project: string, default: string): string {
    if project in t.projects then t.projects[project] else default
  }

  function PartsOf(t: Tables, slots: seq<Allocations.Slot>, default: string): seq<Part> {
    if slots == [] then []
    else
      var last := slots[|slots| - 1].entry;
      PartsOf(t, slots[..|slots| - 1], default) + [Part(SlugOr(t, last.project, default), Wrap(last.points))]
  }

  // Usage joins the allocated project, else the call's own, else none.
  function UsageParts(t: Tables, c: ModelCall): seq<Part> {
    var direct := SlugOr(t, c.project, UNATTRIBUTED);
    var slots := SlotsFor(t, c.id);
    if slots == [] then [Part(direct, WHOLE)] else PartsOf(t, slots, direct)
  }

  // The measurements join the allocated project only.
  function MeasuredParts(t: Tables, c: ModelCall): seq<Part> {
    var slots := SlotsFor(t, c.id);
    if slots == [] then [Part(UNATTRIBUTED, WHOLE)] else PartsOf(t, slots, UNATTRIBUTED)
  }

  function UsageSplit(t: Tables): ModelCall -> seq<Part> {
    c => UsageParts(t, c)
  }

  function MeasuredSplit(t: Tables): ModelCall -> seq<Part> {
    c => MeasuredParts(t, c)
  }

  function CallRows(c: ModelCall, parts: seq<Part>): seq<JoinRow> {
    if parts == [] then []
    else
      var last := parts[|parts| - 1];
      CallRows(c, parts[..|parts| - 1])
        + [JoinRow(c.id, last.slug, c.agent, c.provider, c.model, c.quality, c.columns, last.points)]
  }

  // The rows of all calls, call by call.
  function JoinRows(calls: seq<ModelCall>, parts: ModelCall -> seq<Part>): seq<JoinRow> {
    if calls == [] then []
    else
      var last := calls[|calls| - 1];
      JoinRows(calls[..|calls| - 1], parts) + CallRows(last, parts(last))
  }

  // usageWindow: unreconciled calls between two optional times.
  function Window(calls: seq<ModelCall>, from: Option<int>, to: Option<int>): seq<ModelCall> {
    if calls == [] then []
    else
      var last := calls[|calls| - 1];
      Window(calls[..|calls| - 1], from, to)
        + if !last.reconciled && (from.Some? ==> last.startedAt >= from.value)
            && (to.Some? ==> last.startedAt < to.value)
          then [last] else []
  }

  function CallColumn(calls: seq<ModelCall>, k: nat): int
    requires k < 7
  {
    if calls == [] then 0 else CallColumn(calls[..|calls| - 1], k) + calls[|calls| - 1].columns[k]
  }

  // The calls reported on: those not excluded that started in the window, each as
  // often as it is stored.
  lemma {:induction false} WindowHolds(calls: seq<ModelCall>, from: Option<int>, to: Option<int>, c: ModelCall)
    ensures multiset(Window(calls, from, to))[c] ==
            if !c.reconciled && (from.Some? ==> c.startedAt >= from.value) && (to.Some? ==> c.startedAt < to.value)
            then multiset(calls)[c] else 0
  {
    if calls != [] {
      var init := calls[..|calls| - 1];
      assert calls == init + [calls[|calls| - 1]];
      WindowHolds(init, from, to, c);
    }
  }

  // Their positions in the call table.
  ghost function CountedCalls(calls: seq<ModelCall>, from: Option<int>, to: Option<int>): set<int> {
    set i | 0 <= i < |calls| && !calls[i].reconciled
            && (from.Some? ==> calls[i].startedAt >= from.value) && (to.Some? ==> calls[i].startedAt < to.value)
  }

  ghost function ColumnAt(calls: seq<ModelCall>, k: nat): int -> int
    requires k < 7
  {
    i => if 0 <= i < |calls| then calls[i].columns[k] as int else 0
  }

  lemma CountedNext(calls: seq<ModelCall>, c: ModelCall, from: Option<int>, to: Option<int>)
    ensures var before, now := CountedCalls(calls, from, to), CountedCalls(calls + [c], from, to);
            var w := Window(calls, from, to);
            && |calls| !in before
            && if |calls| in now then now == before + {|calls|} && Window(calls + [c], from, to) == w + [c]
               else now == before && Window(calls + [c], from, to) == w
  {
    assert (calls + [c])[..|calls|] == calls;
    assert forall i :: 0 <= i < |calls| ==> (calls + [c])[i] == calls[i];
  }

  lemma CallColumnAppend(calls: seq<ModelCall>, c: ModelCall, k: nat)
    requires k < 7
    ensures CallColumn(calls + [c], k) == CallColumn(calls, k) + c.columns[k]
  {
    assert (calls + [c])[..|calls|] == calls;
  }

  lemma ColumnAtNext(calls: seq<ModelCall>, c: ModelCall, k: nat)
    requires k < 7
    ensures ColumnAt(calls + [c], k)(|calls|) == c.columns[k] as int
    ensures forall i :: 0 <= i < |calls| ==> ColumnAt(calls + [c], k)(i) == ColumnAt(calls, k)(i)
  {
  }

  // The sum of a column over a window is the sum over those positions.
  lemma {:induction false} WindowSums(calls: seq<ModelCall>, from: Option<int>, to: Option<int>, k: nat)
    requires k < 7
    ensures CallColumn(Window(calls, from, to), k) == SetSum(CountedCalls(calls, from, to), ColumnAt(calls, k))
  {
    hide ColumnAt;
    hide SetSum;
    hide Window;
    hide CallColumn;
    if calls == [] {
      NothingCounted(from, to, k);
    } else {
      var n := |calls| - 1;
      var init, last := calls[..n], calls[n];
      assert calls == init + [last];
      var all, before := CountedCalls(calls, from, to), CountedCalls(init, from, to);
      WindowSums(init, from, to, k);
      CountedNext(init, last, from, to);
      ColumnAtNext(init, last, k);
      SetSumAgrees(before, ColumnAt(init, k), ColumnAt(calls, k));
      if n in all {
        assert all - {n} == before;
        SetSumTake(all, ColumnAt(calls, k), n);
        CallColumnAppend(Window(init, from, to), last, k);
      }
    }
  }

  lemma NothingCounted(from: Option<int>, to: Option<int>, k: nat)
    requires k < 7
    ensures CountedCalls([], from, to) == {} && CallColumn(Window([], from, to), k) == 0
    ensures SetSum({}, ColumnAt([], k)) == 0
  {
  }

  // ---- one call -------------------------------------------------------------------------

  function PointsOf(parts: seq<Part>): (r: seq<int>)
    ensures |r| == |parts|
  {
    if parts == [] then [] else PointsOf(parts[..|parts| - 1]) + [parts[|parts| - 1].points as int]
  }

  // The parts make up exactly the whole.
  predicate WholeParts(parts: seq<Part>) {
    Partial(PointsOf(parts)) && PointsTotal(PointsOf(parts)) == WHOLE
  }

  lemma {:induction false} OffsetAbsent(rows: seq<JoinRow>, call: string)
    requires forall row :: row in rows ==> row.call != call
    ensures Offset(rows, call) == 0
  {
    if rows != [] {
      assert rows[|rows| - 1] in rows;
      OffsetAbsent(rows[..|rows| - 1], call);
    }
  }

  lemma OffsetNext(rows: seq<JoinRow>, row: JoinRow, call: string)
    ensures Offset(rows + [row], call) == Offset(rows, call) + if row.call == call then row.points else 0
  {
    assert (rows + [row])[..|rows|] == rows;
  }

  lemma PointsInit(parts: seq<Part>)
    requires parts != [] && Partial(PointsOf(parts))
    ensures PointsOf(parts)[..|parts| - 1] == PointsOf(parts[..|parts| - 1])
    ensures Partial(PointsOf(parts[..|parts| - 1]))
    ensures PointsOf(parts)[|parts| - 1] == parts[|parts| - 1].points
    ensures PointsTotal(PointsOf(parts)) == PointsTotal(PointsOf(parts[..|parts| - 1])) + parts[|parts| - 1].points
    ensures 0 <= PointsTotal(PointsOf(parts[..|parts| - 1]))
  {
    assert PointsOf(parts)[..|parts| - 1] == PointsOf(parts[..|parts| - 1]);
    PartialPrefix(PointsOf(parts));
  }

  // A call's rows are usable after any others, and each column's shares are
  // the successive ones.
  lemma {:induction false} CallRowsAdd(before: seq<JoinRow>, c: ModelCall, parts: seq<Part>, k: nat)
    requires AllUsable(before) && Offset(before, c.id) == 0 && NonNegative(c.columns) && Partial(PointsOf(parts))
             && k < 7
    ensures var rows := before + CallRows(c, parts);
            && AllUsable(rows) && Offset(rows, c.id) == PointsTotal(PointsOf(parts))
            && Column(Shares(rows, None), k) == Column(Shares(before, None), k)
                + Successive(c.columns[k], PointsOf(parts))
  {
    hide AllUsable;
    hide Shares;
    hide Column;
    hide ApportionShare;
    hide ShareOf;
    hide NonNegative;
    if parts == [] {
      assert before + CallRows(c, parts) == before;
    } else {
      var init, last := parts[..|parts| - 1], parts[|parts| - 1];
      var row := JoinRow(c.id, last.slug, c.agent, c.provider, c.model, c.quality, c.columns, last.points);
      var earlier := before + CallRows(c, init);
      PointsInit(parts);
      CallRowsAdd(before, c, init, k);
      assert before + CallRows(c, parts) == earlier + [row];
      OffsetNext(earlier, row, c.id);
      AllUsableNext(earlier, row);
      SharesNext(earlier, row, None);
      ShareBounds(earlier, row, k);
      ColumnNext(Shares(earlier, None), ShareOf(earlier, row), k);
    }
  }

  // ---- all calls ---------------------------------------------------------------------------

  predicate DistinctIds(calls: seq<ModelCall>) {
    forall i, j :: 0 <= i < j < |calls| ==> calls[i].id != calls[j].id
  }

  predicate AllCounts(calls: seq<ModelCall>) {
    forall i :: 0 <= i < |calls| ==> NonNegative(calls[i].columns)
  }

  // Every call is split over nothing or a whole.
  predicate AllWhole(calls: seq<ModelCall>, parts: ModelCall -> seq<Part>) {
    forall i :: 0 <= i < |calls| ==> WholeParts(parts(calls[i]))
  }

  lemma {:induction false} CallRowsCalls(c: ModelCall, parts: seq<Part>)
    ensures forall row :: row in CallRows(c, parts) ==> row.call == c.id && row.quality == c.quality
    ensures parts != [] ==> CallRows(c, parts) != []
  {
    if parts != [] {
      CallRowsCalls(c, parts[..|parts| - 1]);
    }
  }

  lemma {:induction false} JoinRowsCalls(calls: seq<ModelCall>, parts: ModelCall -> seq<Part>)
    ensures forall row :: row in JoinRows(calls, parts) ==> exists i :: 0 <= i < |calls| && calls[i].id == row.call
  {
    if calls != [] {
      var init, last := calls[..|calls| - 1], calls[|calls| - 1];
      JoinRowsCalls(init, parts);
      CallRowsCalls(last, parts(last));
      forall row | row in JoinRows(calls, parts) ensures exists i :: 0 <= i < |calls| && calls[i].id == row.call {
        if row in JoinRows(init, parts) {
          var i :| 0 <= i < |init| && init[i].id == row.call;
          assert calls[i].id == row.call;
        } else {
          assert calls[|calls| - 1].id == row.call;
        }
      }
    }
  }

  // The rows of the calls before the last one are none of its own.
  lemma RowsOfOthers(calls: seq<ModelCall>, parts: ModelCall -> seq<Part>)
    requires calls != [] && DistinctIds(calls)
    ensures forall row :: row in JoinRows(calls[..|calls| - 1], parts) ==> row.call != calls[|calls| - 1].id
  {
    var init, last := calls[..|calls| - 1], calls[|calls| - 1];
    JoinRowsCalls(init, parts);
    forall row | row in JoinRows(init, parts) ensures row.call != last.id {
      var i :| 0 <= i < |init| && init[i].id == row.call;
      assert calls[i].id != last.id;
    }
  }

  lemma FreshCall(calls: seq<ModelCall>, parts: ModelCall -> seq<Part>)
    requires calls != [] && DistinctIds(calls)
    ensures Offset(JoinRows(calls[..|calls| - 1], parts), calls[|calls| - 1].id) == 0
  {
    RowsOfOthers(calls, parts);
    OffsetAbsent(JoinRows(calls[..|calls| - 1], parts), calls[|calls| - 1].id);
  }

  // Main result on shares: over all calls, in any order and over any number of
  // shares, each of the seven columns adds up to what the calls stored.
  lemma {:induction false} SharesConserve(calls: seq<ModelCall>, parts: ModelCall -> seq<Part>, k: nat)
    requires DistinctIds(calls) && AllCounts(calls) && AllWhole(calls, parts) && k < 7
    ensures AllUsable(JoinRows(calls, parts))
    ensures Column(Shares(JoinRows(calls, parts), None), k) == CallColumn(calls, k)
  {
    hide AllUsable;
    hide Shares;
    hide Column;
    hide NonNegative;
    hide CallRows;
    hide Successive;
    hide PointsTotal;
    if calls == [] {
      NoShares(k);
    } else {
      var init, last := calls[..|calls| - 1], calls[|calls| - 1];
      assert AllCounts(init) && AllWhole(init, parts);
      SharesConserve(init, parts, k);
      FreshCall(calls, parts);
      assert NonNegative(last.columns) && WholeParts(parts(last));
      CallRowsAdd(JoinRows(init, parts), last, parts(last), k);
      ColumnCount(last.columns, k);
      SuccessiveTelescopes(last.columns[k], PointsOf(parts(last)));
    }
  }

  lemma NoShares(k: nat)
    requires k < 7
    ensures AllUsable([]) && Column(Shares([], None), k) == 0
  {
  }

  lemma ColumnCount(columns: Columns, k: nat)
    requires NonNegative(columns) && k < 7
    ensures columns[k] >= 0
  {
  }

  // ---- groups and projects --------------------------------------------------------------------

  function GroupSum(keyOf: KeyFunction, shares: seq<UsageRow>, k: nat): string -> int
    requires k < 7
  {
    key => GroupColumn(keyOf, shares, key, k)
  }

  // The groups partition the shares.
  lemma {:induction false} GroupsPartition(keyOf: KeyFunction, shares: seq<UsageRow>, keys: set<string>, k: nat)
    requires k < 7 && Keys(keyOf, shares) <= keys
    ensures SetSum(keys, GroupSum(keyOf, shares, k)) == Column(shares, k)
  {
    if shares == [] {
      SetSumZero(keys, GroupSum(keyOf, shares, k));
    } else {
      var init, last := shares[..|shares| - 1], shares[|shares| - 1];
      assert last in shares;
      assert keyOf(last) in Keys(keyOf, shares);
      assert forall s :: s in init ==> s in shares;
      GroupsPartition(keyOf, init, keys, k);
      SetSumBump(keys, GroupSum(keyOf, init, k), GroupSum(keyOf, shares, k), keyOf(last), last.columns[k]);
    }
  }

  lemma {:induction false} SetSumZero(keys: set<string>, f: string -> int)
    requires forall key :: f(key) == 0
    ensures SetSum(keys, f) == 0
  {
    if keys != {} {
      var key :| key in keys;
      SetSumTake(keys, f, key);
      SetSumZero(keys - {key}, f);
    }
  }

  function ProjectSum(rows: seq<JoinRow>, k: nat): string -> int
    requires k < 7
  {
    slug => Column(Shares(rows, Some(slug)), k)
  }

  lemma NoProjects(slugs: set<string>, k: nat)
    requires k < 7
    ensures SetSum(slugs, ProjectSum([], k)) == Column(Shares([], None), k) == 0
  {
    SetSumZero(slugs, ProjectSum([], k));
  }

  // The per-project selections partition the rows.
  lemma {:induction false} ProjectsPartition(rows: seq<JoinRow>, slugs: set<string>, k: nat)
    requires k < 7 && forall row :: row in rows ==> row.slug in slugs
    ensures SetSum(slugs, ProjectSum(rows, k)) == Column(Shares(rows, None), k)
  {
    hide ShareOf;
    hide Shares;
    hide Column;
    if rows == [] {
      NoProjects(slugs, k);
    } else {
      var init, last := rows[..|rows| - 1], rows[|rows| - 1];
      assert rows == init + [last];
      assert last in rows;
      ProjectsPartition(init, slugs, k);
      var d := ShareOf(init, last).columns[k];
      forall slug ensures ProjectSum(rows, k)(slug) == ProjectSum(init, k)(slug) + if slug == last.slug then d else 0 {
        SharesNext(init, last, Some(slug));
        ColumnNext(Shares(init, Some(slug)), ShareOf(init, last), k);
      }
      SharesNext(init, last, None);
      ColumnNext(Shares(init, None), ShareOf(init, last), k);
      SetSumBump(slugs, ProjectSum(init, k), ProjectSum(rows, k), last.slug, d);
    }
  }

  function ColumnIn(sums: map<string, Columns>, k: nat): string -> int
    requires k < 7
  {
    key => if key in sums then sums[key][k] as int else 0
  }

  // Main result on reports: whichever way a loop groups its rows, by report row or
  // by quality, the groups it returns sum to the calls' totals in every column.
  lemma ReportConserves(keyOf: KeyFunction, calls: seq<ModelCall>, parts: ModelCall -> seq<Part>,
                        sums: map<string, Columns>, k: nat)
    requires DistinctIds(calls) && AllCounts(calls) && AllWhole(calls, parts) && k < 7
    requires Grouped(keyOf, sums, Shares(JoinRows(calls, parts), None))
    ensures SetSum(sums.Keys, ColumnIn(sums, k)) == CallColumn(calls, k)
  {
    hide GroupColumn;
    hide Column;
    hide Shares;
    hide JoinRows;
    var shares := Shares(JoinRows(calls, parts), None);
    SharesConserve(calls, parts, k);
    GroupsPartition(keyOf, shares, sums.Keys, k);
    SetSumAgrees(sums.Keys, ColumnIn(sums, k), GroupSum(keyOf, shares, k));
  }

  // Main result on projects: the reports of all projects, each over the rows of
  // one slug, sum to the calls' totals as well.
  lemma ProjectsConserve(calls: seq<ModelCall>, parts: ModelCall -> seq<Part>, slugs: set<string>, k: nat)
    requires DistinctIds(calls) && AllCounts(calls) && AllWhole(calls, parts) && k < 7
    requires forall row :: row in JoinRows(calls, parts) ==> row.slug in slugs
    ensures SetSum(slugs, ProjectSum(JoinRows(calls, parts), k)) == CallColumn(calls, k)
  {
    hide JoinRows;
    SharesConserve(calls, parts, k);
    ProjectsPartition(JoinRows(calls, parts), slugs, k);
  }

  // The report rows and the measurements of every project see the same shares when
  // directly attributed calls have allocations and allocated projects exist.
  lemma {:induction false} MeasurementsAgree(t: Tables, calls: seq<ModelCall>)
    requires forall i :: 0 <= i < |calls| && SlotsFor(t, calls[i].id) == [] ==> calls[i].project !in t.projects
    requires forall i, j :: 0 <= i < |calls| && 0 <= j < |SlotsFor(t, calls[i].id)| ==>
               SlotsFor(t, calls[i].id)[j].entry.project in t.projects
    ensures JoinRows(calls, UsageSplit(t)) == JoinRows(calls, MeasuredSplit(t))
  {
    hide SlotsFor;
    hide PartsOf;
    hide CallRows;
    if calls != [] {
      var init, last := calls[..|calls| - 1], calls[|calls| - 1];
      assert forall i :: 0 <= i < |init| ==> init[i] == calls[i];
      MeasurementsAgree(t, init);
      PartsAgree(t, SlotsFor(t, last.id), SlugOr(t, last.project, UNATTRIBUTED), UNATTRIBUTED);
      assert UsageParts(t, last) == MeasuredParts(t, last);
    }
  }

  lemma {:induction false} PartsAgree(t: Tables, slots: seq<Allocations.Slot>, a: string, b: string)
    requires forall j :: 0 <= j < |slots| ==> slots[j].entry.project in t.projects
    ensures PartsOf(t, slots, a) == PartsOf(t, slots, b)
  {
    if slots != [] {
      PartsAgree(t, slots[..|slots| - 1], a, b);
    }
  }

  // ---- the total of a selection ------------------------------------------------------------

  // The tokens of the grouped rows, added in whatever order the map gives them.
  method SumGroups(groups: map<string, UsageRow>, ghost shares: seq<UsageRow>) returns (r: Result<Int64>)
    requires Grouped(KeyOf, ColumnsOf(groups), shares) && NonNegativeShares(shares)
    ensures r.Ok? <==> Column(shares, TOTAL) <= MAX_INT64
    ensures r.Ok? ==> r.value == Column(shares, TOTAL)
  {
    hide Column;
    hide GroupColumn;
    hide KeyOf;
    ghost var tokens := ColumnIn(ColumnsOf(groups), TOTAL);
    GroupsSum(groups, shares);
    var total: Int64 := 0;
    var left := groups.Keys;
    while left != {}
      invariant left <= groups.Keys && total >= 0 && total == SetSum(groups.Keys - left, tokens)
    {
      var key :| key in left;
      ghost var done := groups.Keys - left;
      left := left - {key};
      assert groups.Keys - left == done + {key} && done + {key} - {key} == done;
      SetSumTake(groups.Keys - left, tokens, key);
      SetSumSplit(groups.Keys, groups.Keys - left, tokens);
      SetSumNonNegative(groups.Keys - (groups.Keys - left), tokens);
      var next := AddUsageCount(total, groups[key].columns[TOTAL]);
      if next.Err? {
        return Err(next.reason);
      }
      total := next.value;
    }
    assert groups.Keys - left == groups.Keys;
    r := Ok(total);
  }

  lemma GroupsSum(groups: map<string, UsageRow>, shares: seq<UsageRow>)
    requires Grouped(KeyOf, ColumnsOf(groups), shares) && NonNegativeShares(shares)
    ensures SetSum(groups.Keys, ColumnIn(ColumnsOf(groups), TOTAL)) == Column(shares, TOTAL)
    ensures forall key :: key in groups ==> ColumnIn(ColumnsOf(groups), TOTAL)(key) == groups[key].columns[TOTAL] >= 0
  {
    hide Column;
    hide GroupColumn;
    hide KeyOf;
    assert ColumnsOf(groups).Keys == groups.Keys;
    GroupsPartition(KeyOf, shares, groups.Keys, TOTAL);
    SetSumAgrees(groups.Keys, ColumnIn(ColumnsOf(groups), TOTAL), GroupSum(KeyOf, shares, TOTAL));
    forall key | key in groups ensures groups[key].columns[TOTAL] >= 0 {
      GroupBounds(KeyOf, shares, key, TOTAL);
      assert ColumnsOf(groups)[key][TOTAL] == GroupColumn(KeyOf, shares, key, TOTAL);
    }
  }

  // ---- when the report succeeds -----------------------------------------------------------

  // What recording guarantees of a call: counts, with the tokens covered by the total.
  predicate TokensCovered(c: ModelCall) {
    forall k :: 0 <= k <= TOTAL ==> 0 <= c.columns[k] <= c.columns[TOTAL]
  }

  predicate AllCovered(calls: seq<ModelCall>) {
    forall i :: 0 <= i < |calls| ==> TokensCovered(calls[i])
  }

  lemma {:induction false} ColumnBelowTotal(calls: seq<ModelCall>, k: nat)
    requires AllCovered(calls) && k <= TOTAL
    ensures 0 <= CallColumn(calls, k) <= CallColumn(calls, TOTAL)
  {
    if calls != [] {
      ColumnBelowTotal(calls[..|calls| - 1], k);
      assert TokensCovered(calls[|calls| - 1]);
    }
  }

  lemma {:induction false} FilteredBelow(rows: seq<JoinRow>, filter: Filter, k: nat)
    requires AllUsable(rows) && k < 7
    ensures 0 <= Column(Shares(rows, filter), k) <= Column(Shares(rows, None), k)
  {
    hide ShareOf;
    hide Usable;
    hide Shares;
    hide Column;
    if rows == [] {
      NoFiltered(filter, k);
    } else {
      var init, last := rows[..|rows| - 1], rows[|rows| - 1];
      assert rows == init + [last];
      AllUsableNext(init, last);
      FilteredBelow(init, filter, k);
      ShareBounds(init, last, k);
      SharesNext(init, last, filter);
      SharesNext(init, last, None);
      ColumnNext(Shares(init, filter), ShareOf(init, last), k);
      ColumnNext(Shares(init, None), ShareOf(init, last), k);
    }
  }

  lemma NoFiltered(filter: Filter, k: nat)
    requires k < 7
    ensures Column(Shares([], filter), k) == Column(Shares([], None), k) == 0
  {
  }

  // Token columns never take a group beyond the word.
  lemma TokenGroupFits(keyOf: KeyFunction, calls: seq<ModelCall>, parts: ModelCall -> seq<Part>, filter: Filter,
      key: string, k: nat)
    requires DistinctIds(calls) && AllCounts(calls) && AllWhole(calls, parts) && AllCovered(calls)
    requires CallColumn(calls, TOTAL) <= MAX_INT64 && k <= TOTAL
    ensures GroupColumn(keyOf, Shares(JoinRows(calls, parts), filter), key, k) <= MAX_INT64
  {
    hide JoinRows;
    hide AllUsable;
    hide Shares;
    hide Column;
    hide GroupColumn;
    hide AllWhole;
    hide AllCounts;
    var rows := JoinRows(calls, parts);
    SharesConserve(calls, parts, k);
    ColumnBelowTotal(calls, k);
    FilteredBelow(rows, filter, k);
    SharesNonNegative(rows, filter);
    GroupBounds(keyOf, Shares(rows, filter), key, k);
  }

  lemma {:induction false} UsableCounts(calls: seq<ModelCall>, parts: ModelCall -> seq<Part>)
    requires AllUsable(JoinRows(calls, parts)) && AllWhole(calls, parts)
    ensures AllCounts(calls)
  {
    if calls != [] {
      var init, last := calls[..|calls| - 1], calls[|calls| - 1];
      var before, mine := JoinRows(init, parts), CallRows(last, parts(last));
      var rows := JoinRows(calls, parts);
      assert rows == before + mine;
      assert rows[..|before|] == before;
      forall i | 0 <= i < |before| ensures Usable(before[..i], before[i]) {
        assert rows[..i] == before[..i] && Usable(rows[..i], rows[i]);
      }
      UsableCounts(init, parts);
      PartsExist(parts(last));
      CallRowsColumns(last, parts(last));
      assert Usable(rows[..|before|], rows[|before|]);
      assert rows[|before|] == mine[0];
    }
  }

  lemma PartsExist(parts: seq<Part>)
    requires WholeParts(parts)
    ensures parts != []
  {
  }

  lemma {:induction false} CallRowsColumns(c: ModelCall, parts: seq<Part>)
    ensures |CallRows(c, parts)| == |parts|
    ensures forall i :: 0 <= i < |parts| ==> CallRows(c, parts)[i].columns == c.columns
  {
    if parts != [] {
      CallRowsColumns(c, parts[..|parts| - 1]);
    }
  }

  // The costs of every group stay within the word.
  ghost predicate CostGroupsFit(keyOf: KeyFunction, rows: seq<JoinRow>, filter: Filter) {
    forall key :: GroupColumn(keyOf, Shares(rows, filter), key, COST) <= MAX_INT64
  }

  predicate CostsCount(calls: seq<ModelCall>) {
    forall i :: 0 <= i < |calls| ==> calls[i].columns[COST] >= 0
  }

  // Over calls that recording accepted, a summing loop is refused only for costs: a
  // negative one, or a group of them too large for the word.
  lemma AcceptsExactly(keyOf: KeyFunction, calls: seq<ModelCall>, parts: ModelCall -> seq<Part>, filter: Filter)
    requires DistinctIds(calls) && AllWhole(calls, parts) && AllCovered(calls) && CallColumn(calls, TOTAL) <= MAX_INT64
    ensures Accepts(keyOf, JoinRows(calls, parts), filter) <==>
            CostsCount(calls) && CostGroupsFit(keyOf, JoinRows(calls, parts), filter)
  {
    hide JoinRows;
    hide AllUsable;
    hide Shares;
    hide Column;
    hide GroupColumn;
    hide AllWhole;
    hide DistinctIds;
    var rows := JoinRows(calls, parts);
    if AllUsable(rows) {
      UsableCounts(calls, parts);
    }
    CountsAreCosts(calls);
    if AllCounts(calls) && CostGroupsFit(keyOf, rows, filter) {
      SharesConserve(calls, parts, COST);
      forall key, k: nat | k < 7 ensures GroupColumn(keyOf, Shares(rows, filter), key, k) <= MAX_INT64 {
        if k != COST {
          TokenGroupFits(keyOf, calls, parts, filter, key, k);
        }
      }
    }
  }

  // What the whole report accepts: its rows and their total cost, the total tokens,
  // and the measurements.
  ghost predicate Reports(calls: seq<ModelCall>, t: Tables, filter: Filter) {
    var rows, measured := JoinRows(calls, UsageSplit(t)), JoinRows(calls, MeasuredSplit(t));
    && (filter.None? ==> 0 <= CallColumn(calls, TOTAL) <= MAX_INT64)
    && Accepts(KeyOf, rows, filter) && CostFits(rows, filter)
    && (filter.Some? ==> Column(Shares(rows, filter), TOTAL) <= MAX_INT64)
    && Accepts(QualityOf, measured, filter)
  }

  // Main result on success: over calls that recording accepted and allocations of a
  // whole, the report fails only for costs; it never overflows on tokens.
  lemma FailsOnlyOnCost(calls: seq<ModelCall>, t: Tables, filter: Filter)
    requires DistinctIds(calls) && AllWhole(calls, UsageSplit(t)) && AllWhole(calls, MeasuredSplit(t))
    requires AllCovered(calls) && CallColumn(calls, TOTAL) <= MAX_INT64
    ensures var rows, measured := JoinRows(calls, UsageSplit(t)), JoinRows(calls, MeasuredSplit(t));
            Reports(calls, t, filter) <==>
            CostsCount(calls) && CostFits(rows, filter) && CostGroupsFit(QualityOf, measured, filter)
  {
    hide JoinRows;
    hide AllUsable;
    hide Shares;
    hide Column;
    hide AllWhole;
    hide DistinctIds;
    hide UsageSplit;
    hide MeasuredSplit;
    hide Accepts;
    hide KeyOf;
    hide QualityOf;
    var rows := JoinRows(calls, UsageSplit(t));
    ColumnBelowTotal(calls, TOTAL);
    AcceptsExactly(KeyOf, calls, UsageSplit(t), filter);
    AcceptsExactly(QualityOf, calls, MeasuredSplit(t), filter);
    CountsAreCosts(calls);
    if AllCounts(calls) {
      SharesConserve(calls, UsageSplit(t), TOTAL);
      FilteredBelow(rows, filter, TOTAL);
      SharesNonNegative(rows, filter);
      if CostFits(rows, filter) {
        CostFitsGroups(rows, filter);
      }
    }
  }

  lemma CostFitsGroups(rows: seq<JoinRow>, filter: Filter)
    requires NonNegativeShares(Shares(rows, filter)) && CostFits(rows, filter)
    ensures CostGroupsFit(KeyOf, rows, filter)
  {
    hide KeyOf;
    hide Shares;
    forall key ensures GroupColumn(KeyOf, Shares(rows, filter), key, COST) <= MAX_INT64 {
      GroupBounds(KeyOf, Shares(rows, filter), key, COST);
    }
  }

  lemma CountsAreCosts(calls: seq<ModelCall>)
    requires AllCovered(calls)
    ensures AllCounts(calls) <==> CostsCount(calls)
  {
    forall i | 0 <= i < |calls| ensures NonNegative(calls[i].columns) <==> calls[i].columns[COST] >= 0 {
      assert TokensCovered(calls[i]);
    }
  }

  // ---- how many calls each quality counts --------------------------------------------------

  function CallsOfQuality(calls: seq<ModelCall>, quality: string): nat {
    if calls == [] then 0
    else CallsOfQuality(calls[..|calls| - 1], quality) + if calls[|calls| - 1].quality == quality then 1 else 0
  }

  lemma QualityCountNext(rows: seq<JoinRow>, row: JoinRow, quality: string)
    ensures QualityCount(rows + [row], None, quality) ==
            QualityCount(rows, None, quality) + if row.call !in SeenCalls(rows, None) && row.quality == quality then 1
                else 0
  {
    hide SeenCalls;
    assert (rows + [row])[..|rows|] == rows;
  }

  // A call is counted with its first row and no other.
  lemma {:induction false} CallCountedOnce(before: seq<JoinRow>, c: ModelCall, parts: seq<Part>, quality: string)
    requires c.id !in SeenCalls(before, None) && parts != []
    ensures QualityCount(before + CallRows(c, parts), None, quality) ==
            QualityCount(before, None, quality) + if c.quality == quality then 1 else 0
    ensures c.id in SeenCalls(before + CallRows(c, parts), None)
  {
    hide SeenCalls;
    hide QualityCount;
    var init, last := parts[..|parts| - 1], parts[|parts| - 1];
    var row := JoinRow(c.id, last.slug, c.agent, c.provider, c.model, c.quality, c.columns, last.points);
    var earlier := before + CallRows(c, init);
    assert before + CallRows(c, parts) == earlier + [row];
    if init == [] {
      assert earlier == before;
    } else {
      CallCountedOnce(before, c, init, quality);
    }
    QualityCountNext(earlier, row, quality);
    SeenNext(earlier, row, None);
  }

  // Every call is counted once, under its own quality.
  lemma {:induction false} QualitiesCountCalls(calls: seq<ModelCall>, parts: ModelCall -> seq<Part>, quality: string)
    requires DistinctIds(calls) && AllWhole(calls, parts)
    ensures QualityCount(JoinRows(calls, parts), None, quality) == CallsOfQuality(calls, quality)
  {
    hide CallRows;
    if calls != [] {
      var init, last := calls[..|calls| - 1], calls[|calls| - 1];
      assert AllWhole(init, parts);
      QualitiesCountCalls(init, parts, quality);
      RowsOfOthers(calls, parts);
      PartsExist(parts(last));
      CallCountedOnce(JoinRows(init, parts), last, parts(last), quality);
    }
  }

  // ---- allocations kept by the store ------------------------------------------------------

  function TablesOf(b: Allocations.Books): Tables {
    Tables(b.projects, b.projection)
  }

  lemma PartPointsNext(t: Tables, slots: seq<Allocations.Slot>, default: string)
    requires slots != [] && 0 <= slots[|slots| - 1].entry.points <= WHOLE
    ensures var last := slots[|slots| - 1].entry.points as int;
            PointsOf(PartsOf(t, slots, default)) == PointsOf(PartsOf(t, slots[..|slots| - 1], default)) + [last]
  {
    hide SlugOr;
    var last := slots[|slots| - 1].entry;
    var parts := PartsOf(t, slots[..|slots| - 1], default);
    assert (parts + [Part(SlugOr(t, last.project, default), Wrap(last.points))])[..|parts|] == parts;
  }

  lemma PointsTotalNext(points: seq<int>, p: int)
    ensures PointsTotal(points + [p]) == PointsTotal(points) + p
  {
    assert (points + [p])[..|points|] == points;
  }

  lemma {:induction false} PartPoints(t: Tables, slots: seq<Allocations.Slot>, default: string,
      shares: seq<Allocations.Share>)
    requires |shares| == |slots|
    requires forall j :: 0 <= j < |slots| ==>
               slots[j].entry.points == shares[j].points && 0 <= shares[j].points <= WHOLE
    ensures PointsTotal(PointsOf(PartsOf(t, slots, default))) == Allocations.Total(shares)
    ensures forall j :: 0 <= j < |PointsOf(PartsOf(t, slots, default))| ==>
              0 <= PointsOf(PartsOf(t, slots, default))[j] <= WHOLE
  {
    hide PointsOf;
    hide PartsOf;
    hide PointsTotal;
    if slots == [] {
      NoPartPoints(t, default);
    } else {
      var n := |slots| - 1;
      assert slots[n].entry.points == shares[n].points;
      PartPoints(t, slots[..n], default, shares[..n]);
      PartPointsNext(t, slots, default);
      PointsTotalNext(PointsOf(PartsOf(t, slots[..n], default)), shares[n].points);
    }
  }

  lemma NoPartPoints(t: Tables, default: string)
    ensures PointsOf(PartsOf(t, [], default)) == [] && PointsTotal([]) == 0
  {
  }

  lemma SlotShares(slots: seq<Allocations.Slot>, j: nat)
    requires j < |slots|
    ensures var shares := Allocations.SharesOf(AllocationRuns.EntriesIn(slots));
            |shares| == |slots| && shares[j].points == slots[j].entry.points
  {
    Sorting.ImageAt(AllocationRuns.EntryIn, slots, j);
    Sorting.ImageAt(Allocations.ShareOf, AllocationRuns.EntriesIn(slots), j);
  }

  // Every call of a kept allocation state is split over nothing or a whole.
  lemma KeptSplitsWhole(sha: AuditChain.Sha, b: Allocations.Books, c: ModelCall)
    requires AllocationRuns.Kept(sha, b)
    ensures WholeParts(UsageParts(TablesOf(b), c)) && WholeParts(MeasuredParts(TablesOf(b), c))
  {
    hide Allocations.Total;
    hide AllocationRuns.Kept;
    hide Allocations.SharesOf;
    hide AllocationRuns.EntriesIn;
    hide PartsOf;
    hide PointsOf;
    hide PointsTotal;
    hide SlugOr;
    var t, slots := TablesOf(b), SlotsFor(TablesOf(b), c.id);
    if slots == [] {
      WholePart(SlugOr(t, c.project, UNATTRIBUTED));
      WholePart(UNATTRIBUTED);
    } else {
      var shares := Allocations.SharesOf(AllocationRuns.EntriesIn(slots));
      KeptSharesWhole(sha, b, c.id);
      SlotShares(slots, 0);
      forall j | 0 <= j < |slots| ensures slots[j].entry.points == shares[j].points && 0 <= shares[j].points <= WHOLE {
        SlotShares(slots, j);
      }
      PartPoints(t, slots, SlugOr(t, c.project, UNATTRIBUTED), shares);
      PartPoints(t, slots, UNATTRIBUTED, shares);
    }
  }

  lemma WholePart(slug: string)
    ensures WholeParts([Part(slug, WHOLE)])
  {
    assert PointsOf([Part(slug, WHOLE)]) == [WHOLE] by { assert PointsOf([Part(slug, WHOLE)][..0]) == []; }
    assert PointsTotal([WHOLE][..0]) == 0;
  }

  lemma KeptSharesWhole(sha: AuditChain.Sha, b: Allocations.Books, call: string)
    requires AllocationRuns.Kept(sha, b) && call in b.projection
    ensures Allocations.Whole(Allocations.SharesOf(AllocationRuns.EntriesIn(b.projection[call])))
  {
    hide Allocations.Whole;
    hide Allocations.Of;
    hide Revisions.RevisionHash;
    assert AllocationRuns.CallKept(sha, b, call);
    var mine := Allocations.Of(b.history, call);
    var entries, now := mine[|mine| - 1].entries, AllocationRuns.EntriesIn(b.projection[call]);
    assert AllocationRuns.RevisionOk(sha, b.projects, mine[|mine| - 1]);
    Sorting.ImagePermutes(Allocations.ShareOf, entries, now);
    AllocationProjection.WholePermutes(Allocations.SharesOf(entries), Allocations.SharesOf(now));
  }
}
