/** The usage report: every unreconciled call apportioned over its allocations and
    summed by group (internal/storage/sqlite/store.go). */
module Usage {
  import opened Basics
  import opened Calls
  import opened Apportion
  import Text

  // One row of the joined query: a call's stored columns and one of its shares.
  datatype JoinRow = JoinRow(
    call: string, slug: string, agent: string, provider: string, model: string, quality: string,
    columns: Columns, points: Int64)

  // A reported row: the group it belongs to, and seven sums.
  datatype UsageRow = UsageRow(
    slug: string, agent: string, provider: string, model: string, quality: string, columns: Columns)

  // The rows of one project, or of all of them.
  type Filter = Option<string>

  // ---- apportioned rows ------------------------------------------------------------

  // The basis points earlier rows used up.
  function Offset(rows: seq<JoinRow>, call: string): int {
    if rows == [] then 0
    else Offset(rows[..|rows| - 1], call) + if rows[|rows| - 1].call == call then rows[|rows| - 1].points else 0
  }

  // validateAllocationRange.
  predicate RangeOk(offset: int, points: int) {
    offset >= 0 && 0 <= points <= WHOLE && offset <= WHOLE - points
  }

  predicate NonNegative(columns: Columns) {
    forall k :: 0 <= k < 7 ==> columns[k] >= 0
  }

  predicate Usable(before: seq<JoinRow>, row: JoinRow) {
    NonNegative(row.columns) && RangeOk(Offset(before, row.call), row.points)
  }

  predicate AllUsable(rows: seq<JoinRow>) {
    forall i :: 0 <= i < |rows| ==> Usable(rows[..i], rows[i])
  }

  // The columns of a row's share.
  function Shared(columns: Columns, offset: Int64, points: Int64): Columns {
    [ApportionShare(columns[0], offset, points), ApportionShare(columns[1], offset, points),
     ApportionShare(columns[2], offset, points), ApportionShare(columns[3], offset, points),
     ApportionShare(columns[4], offset, points), ApportionShare(columns[5], offset, points),
     ApportionShare(columns[6], offset, points)]
  }

  lemma SharedAt(columns: Columns, offset: Int64, points: Int64, k: nat)
    requires k < 7
    ensures Shared(columns, offset, points)[k] == ApportionShare(columns[k], offset, points)
  {
  }

  function ShareOf(before: seq<JoinRow>, row: JoinRow): UsageRow {
    UsageRow(row.slug, row.agent, row.provider, row.model, row.quality,
             Shared(row.columns, Wrap(Offset(before, row.call)), row.points))
  }

  predicate Selected(row: JoinRow, filter: Filter) {
    filter.None? || row.slug == filter.value
  }

  // The shares a filter keeps, in the order of the rows.
  function Shares(rows: seq<JoinRow>, filter: Filter): seq<UsageRow> {
    if rows == [] then []
    else
      var init, last := rows[..|rows| - 1], rows[|rows| - 1];
      Shares(init, filter) + if Selected(last, filter) then [ShareOf(init, last)] else []
  }

  function Column(shares: seq<UsageRow>, k: nat): int
    requires k < 7
  {
    if shares == [] then 0 else Column(shares[..|shares| - 1], k) + shares[|shares| - 1].columns[k]
  }

  lemma SharesNext(rows: seq<JoinRow>, row: JoinRow, filter: Filter)
    ensures Shares(rows + [row], filter) ==
            if Selected(row, filter) then Shares(rows, filter) + [ShareOf(rows, row)] else Shares(rows, filter)
  {
    assert (rows + [row])[..|rows|] == rows;
    assert Shares(rows, filter) + [] == Shares(rows, filter);
  }

  lemma AllUsableNext(rows: seq<JoinRow>, row: JoinRow)
    ensures AllUsable(rows + [row]) <==> AllUsable(rows) && Usable(rows, row)
  {
    hide Usable;
    var after := rows + [row];
    assert after[..|rows|] == rows;
    forall i | 0 <= i < |rows| ensures after[..i] == rows[..i] && after[i] == rows[i] {
    }
    if AllUsable(after) {
      forall i | 0 <= i < |rows| ensures Usable(rows[..i], rows[i]) {
        assert Usable(after[..i], after[i]);
      }
      assert Usable(after[..|rows|], after[|rows|]);
    }
  }

  // A usable row's share is within its call's columns.
  lemma ShareBounds(before: seq<JoinRow>, row: JoinRow, k: nat)
    requires Usable(before, row) && k < 7
    ensures 0 <= ShareOf(before, row).columns[k] <= row.columns[k]
    ensures ShareOf(before, row).columns[k] == ApportionShare(row.columns[k], Offset(before, row.call), row.points)
  {
    hide ApportionShare;
    hide Offset;
    var offset: Int64 := Offset(before, row.call);
    SharedAt(row.columns, offset, row.points, k);
    ApportionExact(row.columns[k], offset, row.points);
  }

  // ---- groups --------------------------------------------------------------------------

  // How rows are grouped.
  type KeyFunction = UsageRow -> string

  // The key of a report row.
  function KeyOf(r: UsageRow): string {
    r.slug + "\0" + r.agent + "\0" + r.provider + "\0" + r.model + "\0" + r.quality
  }

  // The key of a measurement.
  function QualityOf(r: UsageRow): string {
    r.quality
  }

  // The shares of one group, summed.
  function GroupColumn(keyOf: KeyFunction, shares: seq<UsageRow>, key: string, k: nat): int
    requires k < 7
  {
    if shares == [] then 0
    else
      GroupColumn(keyOf, shares[..|shares| - 1], key, k)
        + if keyOf(shares[|shares| - 1]) == key then shares[|shares| - 1].columns[k] else 0
  }

  function Keys(keyOf: KeyFunction, shares: seq<UsageRow>): set<string> {
    set s | s in shares :: keyOf(s)
  }

  predicate NonNegativeShares(shares: seq<UsageRow>) {
    forall i :: 0 <= i < |shares| ==> NonNegative(shares[i].columns)
  }

  // Every column of every group stays within the word.
  ghost predicate GroupsFit(keyOf: KeyFunction, shares: seq<UsageRow>) {
    forall key, k: nat :: k < 7 ==> GroupColumn(keyOf, shares, key, k) <= MAX_INT64
  }

  lemma GroupColumnNext(keyOf: KeyFunction, shares: seq<UsageRow>, s: UsageRow, key: string, k: nat)
    requires k < 7
    ensures GroupColumn(keyOf, shares + [s], key, k) ==
            GroupColumn(keyOf, shares, key, k) + if keyOf(s) == key then s.columns[k] else 0
  {
    assert (shares + [s])[..|shares|] == shares;
  }

  lemma ColumnNext(shares: seq<UsageRow>, s: UsageRow, k: nat)
    requires k < 7
    ensures Column(shares + [s], k) == Column(shares, k) + s.columns[k]
  {
    assert (shares + [s])[..|shares|] == shares;
  }

  lemma {:induction false} GroupBounds(keyOf: KeyFunction, shares: seq<UsageRow>, key: string, k: nat)
    requires NonNegativeShares(shares) && k < 7
    ensures 0 <= GroupColumn(keyOf, shares, key, k) <= Column(shares, k)
    ensures key !in Keys(keyOf, shares) ==> GroupColumn(keyOf, shares, key, k) == 0
  {
    if shares != [] {
      GroupBounds(keyOf, shares[..|shares| - 1], key, k);
      assert shares[|shares| - 1] in shares;
      assert forall s :: s in shares[..|shares| - 1] ==> s in shares;
    }
  }

  lemma {:induction false} SharesNonNegative(rows: seq<JoinRow>, filter: Filter)
    requires AllUsable(rows)
    ensures NonNegativeShares(Shares(rows, filter))
  {
    hide Usable;
    hide ShareOf;
    if rows != [] {
      var init, last := rows[..|rows| - 1], rows[|rows| - 1];
      assert rows == init + [last];
      AllUsableNext(init, last);
      SharesNonNegative(init, filter);
      ShareNonNegative(init, last);
      SharesNext(init, last, filter);
    }
  }

  lemma ShareNonNegative(before: seq<JoinRow>, row: JoinRow)
    requires Usable(before, row)
    ensures NonNegative(ShareOf(before, row).columns)
  {
    hide Usable;
    hide ShareOf;
    forall k: nat | k < 7 ensures ShareOf(before, row).columns[k] >= 0 {
      ShareBounds(before, row, k);
    }
  }

  lemma GroupsFitNext(keyOf: KeyFunction, shares: seq<UsageRow>, s: UsageRow)
    requires NonNegative(s.columns)
    ensures GroupsFit(keyOf, shares + [s]) <==>
            && GroupsFit(keyOf, shares)
            && forall k: nat :: k < 7 ==> GroupColumn(keyOf, shares, keyOf(s), k) + s.columns[k] <= MAX_INT64
  {
    hide GroupColumn;
    var after := shares + [s];
    forall key, k: nat | k < 7
      ensures GroupColumn(keyOf, after, key, k) ==
              GroupColumn(keyOf, shares, key, k) + if keyOf(s) == key then s.columns[k] else 0
    {
      GroupColumnNext(keyOf, shares, s, key, k);
    }
    if GroupsFit(keyOf, after) {
      forall key, k: nat | k < 7 ensures GroupColumn(keyOf, shares, key, k) <= MAX_INT64 {
        assert GroupColumn(keyOf, after, key, k) <= MAX_INT64;
      }
      forall k: nat | k < 7 ensures GroupColumn(keyOf, shares, keyOf(s), k) + s.columns[k] <= MAX_INT64 {
        assert GroupColumn(keyOf, after, keyOf(s), k) <= MAX_INT64;
      }
    }
  }

  // What a summing loop accepts: usable rows whose groups fit.
  ghost predicate Accepts(keyOf: KeyFunction, rows: seq<JoinRow>, filter: Filter) {
    AllUsable(rows) && GroupsFit(keyOf, Shares(rows, filter))
  }

  lemma {:induction false} AcceptsPrefix(keyOf: KeyFunction, rows: seq<JoinRow>, n: nat, filter: Filter)
    requires n <= |rows| && Accepts(keyOf, rows, filter)
    ensures Accepts(keyOf, rows[..n], filter)
    ensures Column(Shares(rows[..n], filter), COST) <= Column(Shares(rows, filter), COST)
    decreases |rows| - n
  {
    hide GroupsFit;
    hide AllUsable;
    hide Usable;
    hide ShareOf;
    hide Column;
    if n < |rows| {
      AcceptsPrefix(keyOf, rows, n + 1, filter);
      var init, row := rows[..n], rows[n];
      assert rows[..n + 1] == init + [row];
      AllUsableNext(init, row);
      SharesNext(init, row, filter);
      if Selected(row, filter) {
        ShareNonNegative(init, row);
        GroupsFitNext(keyOf, Shares(init, filter), ShareOf(init, row));
        ColumnNext(Shares(init, filter), ShareOf(init, row), COST);
      }
    } else {
      assert rows[..n] == rows;
    }
  }

  lemma Refused(keyOf: KeyFunction, rows: seq<JoinRow>, n: nat, filter: Filter)
    requires n <= |rows| && !Accepts(keyOf, rows[..n], filter)
    ensures !Accepts(keyOf, rows, filter)
  {
    if Accepts(keyOf, rows, filter) {
      AcceptsPrefix(keyOf, rows, n, filter);
    }
  }

  // ---- what a loop keeps -----------------------------------------------------------------

  function BasisOf(basis: map<string, Int64>, call: string): Int64 {
    if call in basis then basis[call] else 0
  }

  ghost predicate Tracks(basis: map<string, Int64>, rows: seq<JoinRow>) {
    forall call :: BasisOf(basis, call) == Offset(rows, call)
  }

  function Used(basis: map<string, Int64>, row: JoinRow): map<string, Int64> {
    basis[row.call := Wrap(BasisOf(basis, row.call) + row.points)]
  }

  lemma TracksNext(basis: map<string, Int64>, rows: seq<JoinRow>, row: JoinRow)
    requires Tracks(basis, rows) && RangeOk(Offset(rows, row.call), row.points)
    ensures Tracks(Used(basis, row), rows + [row])
  {
    hide Wrap;
    var next, after := Used(basis, row), rows + [row];
    assert after[..|rows|] == rows;
    forall call ensures BasisOf(next, call) == Offset(after, call) {
      assert BasisOf(basis, call) == Offset(rows, call);
    }
  }

  // The sums kept for each key are those of the key's shares.
  ghost predicate Grouped(keyOf: KeyFunction, sums: map<string, Columns>, shares: seq<UsageRow>) {
    && sums.Keys == Keys(keyOf, shares)
    && forall key, k: nat :: key in sums && k < 7 ==> sums[key][k] == GroupColumn(keyOf, shares, key, k)
  }

  predicate SumsTo(sums: Columns, a: Columns, b: Columns) {
    forall k :: 0 <= k < 7 ==> sums[k] as int == a[k] as int + b[k] as int
  }

  // The sums of a key with one more share.
  ghost predicate AddsTo(keyOf: KeyFunction, sums: map<string, Columns>, s: UsageRow, columns: Columns) {
    if keyOf(s) in sums then SumsTo(columns, sums[keyOf(s)], s.columns) else columns == s.columns
  }

  lemma KeysNext(keyOf: KeyFunction, shares: seq<UsageRow>, s: UsageRow)
    ensures Keys(keyOf, shares + [s]) == Keys(keyOf, shares) + {keyOf(s)}
  {
    var after := shares + [s];
    assert s in after;
    assert forall t :: t in after <==> t in shares || t == s;
  }

  lemma GroupedNext(keyOf: KeyFunction, sums: map<string, Columns>, shares: seq<UsageRow>, s: UsageRow,
      columns: Columns)
    requires Grouped(keyOf, sums, shares) && NonNegativeShares(shares) && AddsTo(keyOf, sums, s, columns)
    ensures Grouped(keyOf, sums[keyOf(s) := columns], shares + [s])
  {
    hide Column;
    hide GroupColumn;
    hide NonNegativeShares;
    var key0, after, next := keyOf(s), shares + [s], sums[keyOf(s) := columns];
    KeysNext(keyOf, shares, s);
    assert next.Keys == sums.Keys + {key0};
    forall key, k: nat | key in next && k < 7 ensures next[key][k] == GroupColumn(keyOf, after, key, k) {
      GroupColumnNext(keyOf, shares, s, key, k);
      if key == key0 && key !in sums {
        GroupBounds(keyOf, shares, key, k);
      }
    }
  }

  // addUsageCounts: seven checked additions.
  method AddUsageCounts(targets: Columns, values: Columns) returns (r: Result<Columns>)
    ensures r.Ok? <==> forall k :: 0 <= k < 7 ==> AddUsageCount(targets[k], values[k]).Ok?
    ensures r.Ok? ==> SumsTo(r.value, targets, values)
  {
    var sums := targets;
    for index := 0 to 7
      invariant forall k :: 0 <= k < index ==> AddUsageCount(targets[k], values[k]) == Ok(sums[k])
      invariant forall k :: index <= k < 7 ==> sums[k] == targets[k]
    {
      var next := AddUsageCount(sums[index], values[index]);
      if next.Err? {
        assert AddUsageCount(targets[index], values[index]).Err?;
        return Err(next.reason);
      }
      sums := sums[index := next.value];
    }
    r := Ok(sums);
  }

  // Every value of a row is a count.
  method CheckCounts(columns: Columns) returns (r: Result<()>)
    ensures r.Ok? <==> NonNegative(columns)
  {
    for index := 0 to 7
      invariant forall k :: 0 <= k < index ==> columns[k] >= 0
    {
      var counted := AddUsageCount(0, columns[index]);
      if counted.Err? {
        return Err(counted.reason);
      }
    }
    r := Ok(());
  }

  // What a loop has established after its first i rows.
  ghost predicate Progress(keyOf: KeyFunction, rows: seq<JoinRow>, i: nat, filter: Filter,
                           basis: map<string, Int64>, sums: map<string, Columns>)
    requires i <= |rows|
  {
    Accepts(keyOf, rows[..i], filter) && Tracks(basis, rows[..i]) && Grouped(keyOf, sums, Shares(rows[..i], filter))
  }

  lemma ProgressStart(keyOf: KeyFunction, rows: seq<JoinRow>, filter: Filter)
    ensures Progress(keyOf, rows, 0, filter, map[], map[])
    ensures Shares(rows[..0], filter) == []
  {
    assert rows[..0] == [];
    assert Keys(keyOf, []) == {};
  }

  lemma ProgressEnd(keyOf: KeyFunction, rows: seq<JoinRow>, filter: Filter, basis: map<string, Int64>, sums: map<string,
      Columns>)
    requires Progress(keyOf, rows, |rows|, filter, basis, sums)
    ensures Accepts(keyOf, rows, filter) && Grouped(keyOf, sums, Shares(rows, filter))
  {
    assert rows[..|rows|] == rows;
  }

  // A row that is not usable is refused.
  lemma RowRefused(keyOf: KeyFunction, rows: seq<JoinRow>, i: nat, filter: Filter, basis: map<string, Int64>,
      sums: map<string, Columns>)
    requires i < |rows| && Progress(keyOf, rows, i, filter, basis, sums)
    ensures BasisOf(basis, rows[i].call) == Offset(rows[..i], rows[i].call)
    ensures !Usable(rows[..i], rows[i]) ==> !Accepts(keyOf, rows, filter)
  {
    hide Usable;
    hide GroupsFit;
    hide Grouped;
    hide ShareOf;
    assert rows[..i + 1] == rows[..i] + [rows[i]];
    AllUsableNext(rows[..i], rows[i]);
    if !Usable(rows[..i], rows[i]) {
      Refused(keyOf, rows, i + 1, filter);
    }
  }

  // A row outside the filter only uses up its basis points.
  lemma RowSkipped(keyOf: KeyFunction, rows: seq<JoinRow>, i: nat, filter: Filter, basis: map<string, Int64>,
      sums: map<string, Columns>)
    requires i < |rows| && Progress(keyOf, rows, i, filter, basis, sums)
    requires Usable(rows[..i], rows[i]) && !Selected(rows[i], filter)
    ensures Progress(keyOf, rows, i + 1, filter, Used(basis, rows[i]), sums)
    ensures Shares(rows[..i + 1], filter) == Shares(rows[..i], filter)
  {
    hide GroupsFit;
    hide Grouped;
    hide ShareOf;
    hide Offset;
    hide Tracks;
    hide Used;
    assert rows[..i + 1] == rows[..i] + [rows[i]];
    AllUsableNext(rows[..i], rows[i]);
    SharesNext(rows[..i], rows[i], filter);
    TracksNext(basis, rows[..i], rows[i]);
  }

  // Whether a selected row's share can be added to its group.
  ghost predicate Addable(keyOf: KeyFunction, sums: map<string, Columns>, s: UsageRow) {
    keyOf(s) in sums ==> forall k :: 0 <= k < 7 ==> AddUsageCount(sums[keyOf(s)][k], s.columns[k]).Ok?
  }

  lemma AddableFits(keyOf: KeyFunction, shares: seq<UsageRow>, sums: map<string, Columns>, s: UsageRow)
    requires Grouped(keyOf, sums, shares) && NonNegative(s.columns) && NonNegativeShares(shares)
             && GroupsFit(keyOf, shares)
    ensures Addable(keyOf, sums, s) <==> GroupsFit(keyOf, shares + [s])
  {
    hide Column;
    hide GroupColumn;
    GroupsFitNext(keyOf, shares, s);
    forall k: nat | k < 7
      ensures keyOf(s) in sums ==> sums[keyOf(s)][k] == GroupColumn(keyOf, shares, keyOf(s), k) >= 0
      ensures keyOf(s) !in sums ==> GroupColumn(keyOf, shares, keyOf(s), k) == 0
    {
      GroupBounds(keyOf, shares, keyOf(s), k);
    }
  }

  // A selected row is added to its group, or refused.
  lemma RowAdded(keyOf: KeyFunction, rows: seq<JoinRow>, i: nat, filter: Filter, basis: map<string, Int64>,
                 sums: map<string, Columns>, columns: Columns)
    requires i < |rows| && Progress(keyOf, rows, i, filter, basis, sums)
    requires Usable(rows[..i], rows[i]) && Selected(rows[i], filter)
    ensures var s := ShareOf(rows[..i], rows[i]);
            && (!Addable(keyOf, sums, s) ==> !Accepts(keyOf, rows, filter))
            && (Addable(keyOf, sums, s) && AddsTo(keyOf, sums, s, columns) ==>
                Progress(keyOf, rows, i + 1, filter, Used(basis, rows[i]), sums[keyOf(s) := columns]))
            && Shares(rows[..i + 1], filter) == Shares(rows[..i], filter) + [s]
  {
    hide GroupsFit;
    hide Grouped;
    hide ShareOf;
    hide Offset;
    hide Tracks;
    hide Used;
    hide AddsTo;
    hide Addable;
    hide NonNegativeShares;
    var before, row := rows[..i], rows[i];
    var s, shares := ShareOf(before, row), Shares(before, filter);
    assert rows[..i + 1] == before + [row];
    AllUsableNext(before, row);
    SharesNext(before, row, filter);
    SharesNonNegative(before, filter);
    ShareNonNegative(before, row);
    AddableFits(keyOf, shares, sums, s);
    TracksNext(basis, before, row);
    if !Addable(keyOf, sums, s) {
      Refused(keyOf, rows, i + 1, filter);
    } else if AddsTo(keyOf, sums, s, columns) {
      GroupedNext(keyOf, sums, shares, s, columns);
    }
  }

  // A share that takes the cost beyond the word is refused.
  lemma CostRefused(keyOf: KeyFunction, rows: seq<JoinRow>, i: nat, filter: Filter, basis: map<string, Int64>,
      sums: map<string, Columns>)
    requires i < |rows| && Progress(keyOf, rows, i, filter, basis, sums)
    requires Usable(rows[..i], rows[i]) && Selected(rows[i], filter)
    ensures var s, cost := ShareOf(rows[..i], rows[i]), Column(Shares(rows[..i], filter), COST);
            && cost >= 0 && s.columns[COST] >= 0
            && Column(Shares(rows[..i + 1], filter), COST) == cost + s.columns[COST]
            && (cost + s.columns[COST] > MAX_INT64 ==> !(Accepts(keyOf, rows, filter) && CostFits(rows, filter)))
  {
    hide Usable;
    hide GroupsFit;
    hide Grouped;
    hide ShareOf;
    hide Tracks;
    hide Column;
    hide GroupColumn;
    var before, row := rows[..i], rows[i];
    assert rows[..i + 1] == before + [row];
    SharesNext(before, row, filter);
    SharesNonNegative(before, filter);
    ShareNonNegative(before, row);
    GroupBounds(keyOf, Shares(before, filter), "", COST);
    ColumnNext(Shares(before, filter), ShareOf(before, row), COST);
    if Accepts(keyOf, rows, filter) {
      AcceptsPrefix(keyOf, rows, i + 1, filter);
    }
  }

  predicate CostFits(rows: seq<JoinRow>, filter: Filter) {
    Column(Shares(rows, filter), COST) <= MAX_INT64
  }

  // The checks and the shares of one row, after the rows before it.
  method ApportionRow(ghost before: seq<JoinRow>, row: JoinRow, offset: Int64) returns (r: Result<UsageRow>)
    requires offset == Offset(before, row.call)
    ensures r.Ok? <==> Usable(before, row)
    ensures r.Ok? ==> r.value == ShareOf(before, row) && NonNegative(r.value.columns)
  {
    hide ApportionShare;
    hide Offset;
    hide Wrap;
    hide Shared;
    var counted := CheckCounts(row.columns);
    if counted.Err? {
      return Err(counted.reason);
    }
    if offset < 0 || row.points < 0 || row.points > WHOLE || offset > WHOLE - row.points {
      return Err("stored allocation exceeds 10000 basis points; explicit repair is required");
    }
    WrapSmall(offset);
    ShareNonNegative(before, row);
    r := Ok(UsageRow(row.slug, row.agent, row.provider, row.model, row.quality,
        Shared(row.columns, offset, row.points)));
  }

  // ---- the loop of Usage -------------------------------------------------------------------

  function ColumnsOf(groups: map<string, UsageRow>): map<string, Columns> {
    map key | key in groups :: groups[key].columns
  }

  datatype Sums = Sums(groups: map<string, UsageRow>, cost: Int64)

  predicate KeyedByKey(groups: map<string, UsageRow>) {
    forall key :: key in groups ==> KeyOf(groups[key]) == key
  }

  // One share joins its group, or starts it.
  method AddToGroup(grouped: map<string, UsageRow>, share: UsageRow)
    returns (r: Result<map<string, UsageRow>>, ghost columns: Columns)
    requires KeyedByKey(grouped)
    ensures r.Ok? <==> Addable(KeyOf, ColumnsOf(grouped), share)
    ensures r.Ok? ==>
              && AddsTo(KeyOf, ColumnsOf(grouped), share, columns)
              && ColumnsOf(r.value) == ColumnsOf(grouped)[KeyOf(share) := columns]
              && KeyedByKey(r.value)
  {
    hide KeyOf;
    var key := KeyOf(share);
    columns := share.columns;
    if key in grouped {
      var existing := AddUsageCounts(grouped[key].columns, share.columns);
      if existing.Err? {
        return Err(existing.reason), columns;
      }
      columns := existing.value;
      KeyIgnoresColumns(grouped[key], existing.value);
      r := Ok(grouped[key := grouped[key].(columns := existing.value)]);
    } else {
      r := Ok(grouped[key := share]);
    }
    assert ColumnsOf(r.value) == ColumnsOf(grouped)[key := columns];
  }

  // The loop of Usage over the joined rows.
  method SumUsage(rows: seq<JoinRow>, filter: Filter) returns (r: Result<Sums>)
    ensures r.Ok? <==> Accepts(KeyOf, rows, filter) && CostFits(rows, filter)
    ensures r.Ok? ==>
              && Grouped(KeyOf, ColumnsOf(r.value.groups), Shares(rows, filter))
              && r.value.cost == Column(Shares(rows, filter), COST)
              && KeyedByKey(r.value.groups)
  {
    hide Progress;
    hide Accepts;
    hide Grouped;
    hide Column;
    hide Shares;
    hide Offset;
    hide KeyOf;
    hide Wrap;
    hide ApportionShare;
    hide CostFits;
    hide ColumnsOf;
    hide Addable;
    hide AddsTo;
    hide KeyedByKey;
    hide Usable;
    hide ShareOf;
    var allocatedBasis: map<string, Int64> := map[];
    var grouped: map<string, UsageRow> := map[];
    var totalAllocated: Int64 := 0;
    ProgressStart(KeyOf, rows, filter);
    NoCost();
    for i := 0 to |rows|
      invariant Progress(KeyOf, rows, i, filter, allocatedBasis, ColumnsOf(grouped))
      invariant totalAllocated == Column(Shares(rows[..i], filter), COST)
      invariant KeyedByKey(grouped)
    {
      var row := rows[i];
      ghost var basis, sums := allocatedBasis, ColumnsOf(grouped);
      RowRefused(KeyOf, rows, i, filter, basis, sums);
      var offset := BasisOf(allocatedBasis, row.call);
      var usable := ApportionRow(rows[..i], row, offset);
      if usable.Err? {
        return Err(usable.reason);
      }
      var share := usable.value;
      allocatedBasis := allocatedBasis[row.call := Wrap(offset + row.points)];
      if filter.Some? && row.slug != filter.value {
        RowSkipped(KeyOf, rows, i, filter, basis, sums);
        continue;
      }
      CostRefused(KeyOf, rows, i, filter, basis, sums);
      var nextCost := AddUsageCount(totalAllocated, share.columns[COST]);
      if nextCost.Err? {
        return Err(nextCost.reason);
      }
      totalAllocated := nextCost.value;
      ghost var columns;
      var added;
      added, columns := AddToGroup(grouped, share);
      RowAdded(KeyOf, rows, i, filter, basis, sums, columns);
      if added.Err? {
        return Err(added.reason);
      }
      grouped := added.value;
    }
    ProgressEnd(KeyOf, rows, filter, allocatedBasis, ColumnsOf(grouped));
    assert rows[..|rows|] == rows;
    CostFitsIs(rows, filter);
    r := Ok(Sums(grouped, totalAllocated));
  }

  lemma CostFitsIs(rows: seq<JoinRow>, filter: Filter)
    ensures CostFits(rows, filter) <==> Column(Shares(rows, filter), COST) <= MAX_INT64
  {
  }

  lemma NoCost()
    ensures Column([], COST) == 0 && ColumnsOf(map[]) == map[] && KeyedByKey(map[])
  {
  }

  lemma WrapSmall(x: Int64)
    ensures Wrap(x) == x
  {
  }

  lemma KeyIgnoresColumns(r: UsageRow, columns: Columns)
    ensures KeyOf(r.(columns := columns)) == KeyOf(r)
  {
  }

  // ---- the loop of usageMeasurements ---------------------------------------------------------

  // The calls with a selected row.
  function SeenCalls(rows: seq<JoinRow>, filter: Filter): set<string> {
    set row | row in rows && Selected(row, filter) :: row.call
  }

  // How many calls are first selected under a quality.
  function QualityCount(rows: seq<JoinRow>, filter: Filter, quality: string): nat {
    if rows == [] then 0
    else
      var init, last := rows[..|rows| - 1], rows[|rows| - 1];
      QualityCount(init, filter, quality)
        + if Selected(last, filter) && last.call !in SeenCalls(init, filter) && last.quality == quality then 1 else 0
  }

  datatype Summary = Summary(calls: nat, columns: Columns)

  const NOTHING := Summary(0, [0, 0, 0, 0, 0, 0, 0])

  function SummaryColumns(byQuality: map<string, Summary>): map<string, Columns> {
    map quality | quality in byQuality :: byQuality[quality].columns
  }

  function SummaryOf(byQuality: map<string, Summary>, quality: string): Summary {
    if quality in byQuality then byQuality[quality] else NOTHING
  }

  // The counts kept per quality.
  ghost predicate Counted(byQuality: map<string, Summary>, rows: seq<JoinRow>, filter: Filter) {
    forall quality :: SummaryOf(byQuality, quality).calls == QualityCount(rows, filter, quality)
  }

  lemma SeenNext(rows: seq<JoinRow>, row: JoinRow, filter: Filter)
    ensures SeenCalls(rows + [row], filter) ==
            if Selected(row, filter) then SeenCalls(rows, filter) + {row.call} else SeenCalls(rows, filter)
  {
    var after := rows + [row];
    assert row in after;
    assert forall other :: other in after <==> other in rows || other == row;
  }

  lemma CountedNext(byQuality: map<string, Summary>, rows: seq<JoinRow>, row: JoinRow, filter: Filter, summary: Summary)
    requires Counted(byQuality, rows, filter) && Selected(row, filter)
    requires summary.calls == SummaryOf(byQuality, row.quality).calls + if row.call in SeenCalls(rows, filter) then 0
             else 1
    ensures Counted(byQuality[row.quality := summary], rows + [row], filter)
  {
    hide Selected;
    hide SeenCalls;
    var after, next := rows + [row], byQuality[row.quality := summary];
    assert after[..|rows|] == rows;
    forall quality ensures SummaryOf(next, quality).calls == QualityCount(after, filter, quality) {
      assert SummaryOf(byQuality, quality).calls == QualityCount(rows, filter, quality);
    }
  }

  lemma CountedSkip(byQuality: map<string, Summary>, rows: seq<JoinRow>, row: JoinRow, filter: Filter)
    requires Counted(byQuality, rows, filter) && !Selected(row, filter)
    ensures Counted(byQuality, rows + [row], filter)
  {
    hide SeenCalls;
    var after := rows + [row];
    assert after[..|rows|] == rows;
    forall quality ensures SummaryOf(byQuality, quality).calls == QualityCount(after, filter, quality) {
      assert SummaryOf(byQuality, quality).calls == QualityCount(rows, filter, quality);
    }
  }

  lemma ShareQuality(before: seq<JoinRow>, row: JoinRow)
    ensures QualityOf(ShareOf(before, row)) == row.quality == ShareOf(before, row).quality
  {
  }

  // Adding to a summary, new or not.
  method AddToSummary(byQuality: map<string, Summary>, share: UsageRow, first: bool)
    returns (r: Result<Summary>)
    requires NonNegative(share.columns)
    ensures r.Ok? <==> Addable(QualityOf, SummaryColumns(byQuality), share)
    ensures r.Ok? ==>
              && AddsTo(QualityOf, SummaryColumns(byQuality), share, r.value.columns)
              && r.value.calls == SummaryOf(byQuality, share.quality).calls + if first then 1 else 0
  {
    var summary := SummaryOf(byQuality, share.quality);
    if first {
      summary := summary.(calls := summary.calls + 1);
    }
    var columns := AddUsageCounts(summary.columns, share.columns);
    if columns.Err? {
      assert share.quality in byQuality;
      return Err(columns.reason);
    }
    r := Ok(summary.(columns := columns.value));
    assert share.quality !in byQuality ==> columns.value == share.columns;
  }

  // The loop of usageMeasurements over the joined rows.
  method SumMeasurements(rows: seq<JoinRow>, filter: Filter) returns (r: Result<map<string, Summary>>)
    ensures r.Ok? <==> Accepts(QualityOf, rows, filter)
    ensures r.Ok? ==>
              Grouped(QualityOf, SummaryColumns(r.value), Shares(rows, filter)) && Counted(r.value, rows, filter)
  {
    hide Progress;
    hide Accepts;
    hide Grouped;
    hide Shares;
    hide Offset;
    hide Wrap;
    hide ApportionShare;
    hide Addable;
    hide AddsTo;
    hide Counted;
    hide SeenCalls;
    hide SummaryColumns;
    hide QualityCount;
    hide Usable;
    hide ShareOf;
    hide NonNegative;
    hide QualityOf;
    var allocatedBasis: map<string, Int64> := map[];
    var byQuality: map<string, Summary> := map[];
    var seenCalls: set<string> := {};
    ProgressStart(QualityOf, rows, filter);
    NoSummaries(rows, filter);
    for i := 0 to |rows|
      invariant Progress(QualityOf, rows, i, filter, allocatedBasis, SummaryColumns(byQuality))
      invariant seenCalls == SeenCalls(rows[..i], filter) && Counted(byQuality, rows[..i], filter)
    {
      var row := rows[i];
      assert rows[..i + 1] == rows[..i] + [row];
      ghost var basis, sums := allocatedBasis, SummaryColumns(byQuality);
      RowRefused(QualityOf, rows, i, filter, basis, sums);
      SeenNext(rows[..i], row, filter);
      var offset := BasisOf(allocatedBasis, row.call);
      var usable := ApportionRow(rows[..i], row, offset);
      if usable.Err? {
        return Err(usable.reason);
      }
      var share := usable.value;
      allocatedBasis := allocatedBasis[row.call := Wrap(offset + row.points)];
      if filter.Some? && row.slug != filter.value {
        RowSkipped(QualityOf, rows, i, filter, basis, sums);
        CountedSkip(byQuality, rows[..i], row, filter);
        continue;
      }
      ShareQuality(rows[..i], row);
      var added := AddToSummary(byQuality, share, row.call !in seenCalls);
      if added.Err? {
        RowAdded(QualityOf, rows, i, filter, basis, sums, share.columns);
        return Err(added.reason);
      }
      RowAdded(QualityOf, rows, i, filter, basis, sums, added.value.columns);
      CountedNext(byQuality, rows[..i], row, filter, added.value);
      SummaryColumnsNext(byQuality, row.quality, added.value);
      seenCalls := seenCalls + {row.call};
      byQuality := byQuality[row.quality := added.value];
    }
    ProgressEnd(QualityOf, rows, filter, allocatedBasis, SummaryColumns(byQuality));
    assert rows[..|rows|] == rows;
    r := Ok(byQuality);
  }

  lemma SummaryColumnsNext(byQuality: map<string, Summary>, quality: string, summary: Summary)
    ensures SummaryColumns(byQuality[quality := summary]) == SummaryColumns(byQuality)[quality := summary.columns]
  {
  }

  lemma NoSummaries(rows: seq<JoinRow>, filter: Filter)
    ensures SummaryColumns(map[]) == map[] && SeenCalls(rows[..0], filter) == {} && Counted(map[], rows[..0], filter)
  {
  }

  // ---- what a group holds ------------------------------------------------------------------

  // Two rows that a report keeps together: all five names agree.
  predicate SameNames(a: UsageRow, b: UsageRow) {
    a.slug == b.slug && a.agent == b.agent && a.provider == b.provider && a.model == b.model && a.quality == b.quality
  }

  predicate NulFree(r: UsageRow) {
    '\0' !in r.slug && '\0' !in r.agent && '\0' !in r.provider && '\0' !in r.model && '\0' !in r.quality
  }

  lemma NulsAppend(a: string, b: string)
    ensures multiset(a + b)['\0'] == multiset(a)['\0'] + multiset(b)['\0']
  {
  }

  lemma NulsInKey(r: UsageRow)
    ensures NulFree(r) <==> multiset(KeyOf(r))['\0'] == 4
  {
    var nul: string := "\0";
    assert multiset(nul)['\0'] == 1;
    var k1 := r.slug + nul;
    var k2 := k1 + r.agent;
    var k3 := k2 + nul;
    var k4 := k3 + r.provider;
    var k5 := k4 + nul;
    var k6 := k5 + r.model;
    var k7 := k6 + nul;
    NulsAppend(r.slug, nul);
    NulsAppend(k1, r.agent);
    NulsAppend(k2, nul);
    NulsAppend(k3, r.provider);
    NulsAppend(k4, nul);
    NulsAppend(k5, r.model);
    NulsAppend(k6, nul);
    NulsAppend(k7, r.quality);
    assert KeyOf(r) == k7 + r.quality;
  }

  // The names of a row can be read back from its key when none of them holds a NUL.
  lemma KeyDetermines(a: UsageRow, b: UsageRow)
    requires NulFree(b)
    ensures KeyOf(a) == KeyOf(b) <==> SameNames(a, b)
  {
    if KeyOf(a) == KeyOf(b) {
      NulsInKey(a);
      NulsInKey(b);
      KeySplits(a);
      KeySplits(b);
      var a3, b3 := a.model + ['\0'] + a.quality, b.model + ['\0'] + b.quality;
      var a2, b2 := a.provider + ['\0'] + a3, b.provider + ['\0'] + b3;
      var a1, b1 := a.agent + ['\0'] + a2, b.agent + ['\0'] + b2;
      Text.SplitAtFirst('\0', a.slug, a1, b.slug, b1);
      Text.SplitAtFirst('\0', a.agent, a2, b.agent, b2);
      Text.SplitAtFirst('\0', a.provider, a3, b.provider, b3);
      Text.SplitAtFirst('\0', a.model, a.quality, b.model, b.quality);
    }
  }

  lemma KeySplits(r: UsageRow)
    ensures KeyOf(r) == r.slug + ['\0'] + (r.agent + ['\0'] + (r.provider + ['\0'] + (r.model + ['\0'] + r.quality)))
  {
  }

  // The sum of a column over the shares with the same names.
  function LikeSum(shares: seq<UsageRow>, g: UsageRow, k: nat): int
    requires k < 7
  {
    if shares == [] then 0
    else
      var last := shares[|shares| - 1];
      LikeSum(shares[..|shares| - 1], g, k) + if SameNames(last, g) then last.columns[k] else 0
  }

  lemma {:induction false} LikeSumIs(shares: seq<UsageRow>, g: UsageRow, k: nat)
    requires k < 7 && forall s :: s in shares ==> NulFree(s)
    ensures LikeSum(shares, g, k) == GroupColumn(KeyOf, shares, KeyOf(g), k)
  {
    hide KeyOf;
    hide NulFree;
    if shares != [] {
      LikeSumIs(shares[..|shares| - 1], g, k);
      KeyDetermines(g, shares[|shares| - 1]);
    }
  }

  lemma SameNamesSameKey(a: UsageRow, b: UsageRow)
    requires SameNames(a, b)
    ensures KeyOf(a) == KeyOf(b)
  {
  }

  // Every share is in a group with its names, when they hold no NUL.
  lemma GroupOfShare(groups: map<string, UsageRow>, shares: seq<UsageRow>, s: UsageRow) returns (key: string)
    requires Grouped(KeyOf, ColumnsOf(groups), shares) && KeyedByKey(groups) && s in shares && NulFree(s)
    ensures key in groups && SameNames(groups[key], s)
  {
    hide KeyOf;
    hide NulFree;
    hide SameNames;
    hide GroupColumn;
    key := KeyOf(s);
    assert key in Keys(KeyOf, shares);
    assert ColumnsOf(groups).Keys == groups.Keys;
    KeyDetermines(groups[key], s);
  }

  // Main result on groups: where no name holds a NUL, a group carries the names of one of
  // the shares, sums exactly the shares with those names, and is the only one to do so.
  lemma GroupExactly(groups: map<string, UsageRow>, shares: seq<UsageRow>, key: string) returns (s: UsageRow)
    requires Grouped(KeyOf, ColumnsOf(groups), shares) && KeyedByKey(groups) && key in groups
    requires forall s :: s in shares ==> NulFree(s)
    ensures s in shares && SameNames(groups[key], s)
    ensures forall other :: other in groups && SameNames(groups[other], groups[key]) ==> other == key
    ensures forall k: nat :: k < 7 ==> groups[key].columns[k] as int == LikeSum(shares, groups[key], k)
  {
    hide KeyOf;
    hide NulFree;
    hide SameNames;
    hide GroupColumn;
    hide LikeSum;
    assert key in ColumnsOf(groups);
    assert key in Keys(KeyOf, shares);
    s :| s in shares && KeyOf(s) == key;
    KeyDetermines(groups[key], s);
    forall other | other in groups && SameNames(groups[other], groups[key]) ensures other == key {
      SameNamesSameKey(groups[other], groups[key]);
    }
    forall k: nat | k < 7 ensures groups[key].columns[k] as int == LikeSum(shares, groups[key], k) {
      LikeSumIs(shares, groups[key], k);
      assert ColumnsOf(groups)[key][k] as int == GroupColumn(KeyOf, shares, key, k);
    }
  }

  // A NUL lets two agents share a key: the report adds their tokens up as one group.
  lemma NulMergesGroups(columns: Columns)
    ensures var a := UsageRow("p", "x\0y", "z", "m", "exact", columns);
            var b := UsageRow("p", "x", "y\0z", "m", "exact", columns);
            KeyOf(a) == KeyOf(b) && !SameNames(a, b)
  {
    var a, b := UsageRow("p", "x\0y", "z", "m", "exact", columns), UsageRow("p", "x", "y\0z", "m", "exact", columns);
    assert KeyOf(a) == "p\0x\0y\0z\0m\0exact" == KeyOf(b);
  }
}
