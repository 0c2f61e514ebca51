/** The running token total that RecordModelCall keeps in memory
    (internal/storage/sqlite/usage_limits.go and store.go). */
module Capacity {
  import opened Basics
  import opened Calls
  import opened UsageTotals
  import Text
  import Usage
  import Allocations
  import AllocationRuns
  import AuditChain

  // The call table and the cached sum of its total tokens, if it was read.
  datatype State = State(calls: seq<ModelCall>, recordedTokens: Option<Int64>)

  predicate HasId(calls: seq<ModelCall>, id: string) {
    exists k :: 0 <= k < |calls| && calls[k].id == id
  }

  // nextUsageTotal: the cached sum, or the table's own when nothing is cached and
  // the sum is a non-negative word.
  function CachedTotal(s: State): Option<Int64> {
    if s.recordedTokens.Some? then s.recordedTokens
    else if 0 <= TotalTokens(s.calls) <= MAX_INT64 then Some(TotalTokens(s.calls))
    else None
  }

  // RecordModelCall on the table and the cache. `keysResolve` says whether the
  // row's foreign keys resolve; the id is drawn outside.
  function Record(s: State, i: CallInput, id: string, keysResolve: bool): State {
    var total := CallTotal(i);
    if total.None? || BlankModel(i) || (i.rawEventId != "" && HasCallFor(s.calls, i.rawEventId)) then s
    else
      var cached := CachedTotal(s);
      if cached.None? then s
      else
        var next := AddUsageCount(cached.value, total.value);
        if next.Err? || !keysResolve || HasId(s.calls, id) || !MetricsStorable(i.metrics)
            then s.(recordedTokens := cached)
        else State(s.calls + [Row(i, id, total.value)], Some(next.value))
  }

  predicate BlankModel(i: CallInput) {
    Text.TrimSpace(i.provider) == "" || Text.TrimSpace(i.model) == ""
  }

  // What else changes the table between recordings: a call is reconciled, its cost
  // is recalculated, or the store is reopened with an empty cache.
  datatype Op =
    | RecordOp(input: CallInput, id: string, keysResolve: bool)
    | Reconcile(k: nat)
    | Reprice(k: nat, cost: Int64)
    | Reopen

  function Step(s: State, op: Op): State {
    match op
    case RecordOp(i, id, keysResolve) => Record(s, i, id, keysResolve)
    case Reconcile(k) => if k < |s.calls| then s.(calls := s.calls[k := s.calls[k].(reconciled := true)]) else s
    case Reprice(k, cost) =>
      if k < |s.calls| then s.(calls := s.calls[k := s.calls[k].(columns := s.calls[k].columns[COST := cost])]) else s
    case Reopen => s.(recordedTokens := None)
  }

  function Run(s: State, ops: seq<Op>): State {
    if ops == [] then s else Step(Run(s, ops[..|ops| - 1]), ops[|ops| - 1])
  }

  // The cache is empty or exact, the sum fits a word, and every call's tokens are
  // covered by its total.
  predicate Sound(s: State) {
    && (s.recordedTokens.Some? ==> s.recordedTokens.value == TotalTokens(s.calls))
    && 0 <= TotalTokens(s.calls) <= MAX_INT64
    && AllCovered(s.calls) && DistinctIds(s.calls) && OneCallPerEvent(s.calls)
  }

  lemma {:induction false} TotalTokensUpdate(calls: seq<ModelCall>, k: nat, c: ModelCall)
    requires k < |calls| && c.columns[TOTAL] == calls[k].columns[TOTAL]
    ensures TotalTokens(calls[k := c]) == TotalTokens(calls)
  {
    var after := calls[k := c];
    if k == |calls| - 1 {
      assert after[..|calls| - 1] == calls[..|calls| - 1];
    } else {
      assert after[..|calls| - 1] == calls[..|calls| - 1][k := c];
      TotalTokensUpdate(calls[..|calls| - 1], k, c);
    }
  }

  lemma TotalTokensNext(calls: seq<ModelCall>, c: ModelCall)
    ensures TotalTokens(calls + [c]) == TotalTokens(calls) + c.columns[TOTAL]
  {
    assert (calls + [c])[..|calls|] == calls;
  }

  // A recorded row's tokens are covered by the total it was accepted with.
  lemma RowCovered(i: CallInput, id: string, total: Int64)
    requires CallTotal(i) == Some(total)
    ensures TokensCovered(Row(i, id, total)) && total >= 0
  {
    var parts := Components(i);
    SumBoundsTerms(parts);
    assert parts[0] == i.input && parts[1] == i.output && parts[2] == i.reasoning
           && parts[3] == i.cachedInput && parts[4] == i.cacheWrite;
  }

  lemma RecordSound(s: State, i: CallInput, id: string, keysResolve: bool)
    requires Sound(s)
    ensures Sound(Record(s, i, id, keysResolve))
    ensures Record(s, i, id, keysResolve).calls == Recorded(s.calls, i, id, keysResolve && !HasId(s.calls, id))
  {
    hide CallTotal;
    hide TokensCovered;
    hide MetricsStorable;
    hide TotalTokens;
    hide Row;
    var total := CallTotal(i);
    if total.Some? {
      var row := Row(i, id, total.value);
      RowColumns(i, id, total.value);
      RowCovered(i, id, total.value);
      TotalTokensNext(s.calls, row);
      RecordedKeepsOneCallPerEvent(s.calls, i, id, keysResolve && !HasId(s.calls, id));
    }
  }

  lemma RowColumns(i: CallInput, id: string, total: Int64)
    ensures Row(i, id, total).columns[TOTAL] == total && Row(i, id, total).id == id
  {
  }

  lemma UpdateSound(s: State, k: nat, c: ModelCall)
    requires Sound(s) && k < |s.calls| && TokensCovered(c) && c.columns[TOTAL] == s.calls[k].columns[TOTAL]
    requires c.id == s.calls[k].id && c.rawEventId == s.calls[k].rawEventId
    ensures Sound(s.(calls := s.calls[k := c]))
  {
    hide TokensCovered;
    hide TotalTokens;
    TotalTokensUpdate(s.calls, k, c);
  }

  lemma StepSound(s: State, op: Op)
    requires Sound(s)
    ensures Sound(Step(s, op))
  {
    hide Record;
    hide TotalTokens;
    match op
    case RecordOp(i, id, keysResolve) => RecordSound(s, i, id, keysResolve);
    case Reconcile(k) =>
      if k < |s.calls| {
        assert TokensCovered(s.calls[k]);
        UpdateSound(s, k, s.calls[k].(reconciled := true));
      }
    case Reprice(k, cost) =>
      if k < |s.calls| {
        assert TokensCovered(s.calls[k]);
        UpdateSound(s, k, s.calls[k].(columns := s.calls[k].columns[COST := cost]));
      }
    case Reopen =>
  }

  const EMPTY := State([], None)

  // Main result over runs of recordings, refused and duplicate ones included: the
  // cache is empty or equals the sum of the stored totals, which fits a word.
  lemma {:induction false} RunsStaySound(ops: seq<Op>)
    ensures Sound(Run(EMPTY, ops))
  {
    hide Sound;
    hide Step;
    if ops == [] {
      EmptySound();
    } else {
      RunsStaySound(ops[..|ops| - 1]);
      StepSound(Run(EMPTY, ops[..|ops| - 1]), ops[|ops| - 1]);
    }
  }

  lemma EmptySound()
    ensures Sound(EMPTY)
  {
  }

  // What a stored call keeps for good: everything but its cost and its flag.
  predicate SameCall(was: ModelCall, now: ModelCall) {
    now == was.(columns := was.columns[COST := now.columns[COST]], reconciled := now.reconciled)
  }

  lemma StepKeepsCall(s: State, op: Op, k: nat)
    requires k < |s.calls|
    ensures k < |Step(s, op).calls| && SameCall(s.calls[k], Step(s, op).calls[k])
  {
    hide CallTotal;
    hide MetricsStorable;
    hide TotalTokens;
    hide Row;
    assert s.calls[k].columns[COST := s.calls[k].columns[COST]] == s.calls[k].columns;
  }

  lemma RunNext(s: State, ops: seq<Op>, op: Op)
    ensures Run(s, ops + [op]) == Step(Run(s, ops), op)
  {
    hide Step;
    assert (ops + [op])[..|ops|] == ops;
  }

  lemma {:induction false} RunKeepsCall(ops: seq<Op>, more: seq<Op>, k: nat)
    requires k < |Run(EMPTY, ops).calls|
    ensures k < |Run(EMPTY, ops + more).calls|
    ensures SameCall(Run(EMPTY, ops).calls[k], Run(EMPTY, ops + more).calls[k])
  {
    hide Step;
    hide Run;
    if more == [] {
      assert ops + more == ops;
      var c := Run(EMPTY, ops).calls[k];
      assert c.columns[COST := c.columns[COST]] == c.columns;
    } else {
      var init, op := more[..|more| - 1], more[|more| - 1];
      RunKeepsCall(ops, init, k);
      assert ops + more == (ops + init) + [op];
      RunNext(EMPTY, ops + init, op);
      StepKeepsCall(Run(EMPTY, ops + init), op, k);
    }
  }

  lemma {:induction false} CallForIs(calls: seq<ModelCall>, rawEventId: string, k: nat)
    requires OneCallPerEvent(calls) && rawEventId != "" && k < |calls| && calls[k].rawEventId == rawEventId
    ensures HasCallFor(calls, rawEventId) && CallFor(calls, rawEventId) == calls[k]
  {
    if k > 0 {
      assert calls[0].rawEventId != rawEventId;
      assert calls[1..][k - 1] == calls[k];
      CallForIs(calls[1..], rawEventId, k - 1);
    }
  }

  // Main result on duplicates: the first call recorded for a raw event is its call
  // for good, with the same id and tokens, however often and with whatever counts
  // the event is recorded again.
  lemma FirstCallStays(ops: seq<Op>, more: seq<Op>, rawEventId: string)
    requires rawEventId != "" && HasCallFor(Run(EMPTY, ops).calls, rawEventId)
    ensures HasCallFor(Run(EMPTY, ops + more).calls, rawEventId)
    ensures SameCall(CallFor(Run(EMPTY, ops).calls, rawEventId), CallFor(Run(EMPTY, ops + more).calls, rawEventId))
  {
    hide Run;
    hide Sound;
    hide SameCall;
    hide HasCallFor;
    var was := CallFor(Run(EMPTY, ops).calls, rawEventId);
    var k :| 0 <= k < |Run(EMPTY, ops).calls| && Run(EMPTY, ops).calls[k] == was;
    RunsStaySound(ops);
    RunsStaySound(ops + more);
    SoundCallsOnce(Run(EMPTY, ops + more));
    SameCallRead(ops, more, k);
    CallForIs(Run(EMPTY, ops + more).calls, rawEventId, k);
  }

  lemma SameCallRead(ops: seq<Op>, more: seq<Op>, k: nat)
    requires k < |Run(EMPTY, ops).calls|
    ensures k < |Run(EMPTY, ops + more).calls|
    ensures SameCall(Run(EMPTY, ops).calls[k], Run(EMPTY, ops + more).calls[k])
    ensures Run(EMPTY, ops + more).calls[k].rawEventId == Run(EMPTY, ops).calls[k].rawEventId
  {
    hide Run;
    RunKeepsCall(ops, more, k);
  }

  lemma SoundCallsOnce(s: State)
    requires Sound(s)
    ensures OneCallPerEvent(s.calls)
  {
  }

  // A row that is reconciled or repriced changes in that alone, and no other row does.
  lemma UpdatesExactly(s: State, k: nat, cost: Int64, j: nat)
    requires k < |s.calls| && j < |s.calls|
    ensures var flagged, priced := Step(s, Reconcile(k)).calls, Step(s, Reprice(k, cost)).calls;
            && |flagged| == |s.calls| == |priced|
            && (if j == k then flagged[j].reconciled && flagged[j].(reconciled := s.calls[j].reconciled) == s.calls[j]
                else flagged[j] == s.calls[j])
            && (if j == k then priced[j].columns[6] == cost && SameCall(s.calls[j], priced[j])
                                && priced[j].reconciled == s.calls[j].reconciled
                else priced[j] == s.calls[j])
  {
    hide Record;
  }

  // ---- where the rows come from -------------------------------------------------------

  // A row as it was recorded, whatever was later done to its cost and its flag.
  predicate StoredFrom(row: ModelCall, op: Op) {
    && op.RecordOp? && CallTotal(op.input).Some?
    && StoresInput(row.(columns := row.columns[COST := op.input.cost], reconciled := false), op.input, op.id,
                   CallTotal(op.input).value)
  }

  lemma RecordStores(s: State, op: Op)
    requires op.RecordOp? && |Step(s, op).calls| > |s.calls|
    ensures |Step(s, op).calls| == |s.calls| + 1 && StoredFrom(Step(s, op).calls[|s.calls|], op)
  {
    hide CallTotal;
    hide MetricsStorable;
    hide TotalTokens;
    var row := Row(op.input, op.id, CallTotal(op.input).value);
    assert row.columns[COST := op.input.cost] == row.columns;
  }

  lemma StoredStays(was: ModelCall, now: ModelCall, op: Op)
    requires StoredFrom(was, op) && SameCall(was, now)
    ensures StoredFrom(now, op)
  {
    hide CallTotal;
    assert now.columns[COST := op.input.cost] == was.columns[COST := op.input.cost];
  }

  // Main result on the table: after any run, each row is that of one recording of the
  // run, field by field and count by count, with the total the store settled on.
  lemma {:induction false} RowsAreRecordings(ops: seq<Op>, k: nat) returns (j: nat)
    requires k < |Run(EMPTY, ops).calls|
    ensures j < |ops| && StoredFrom(Run(EMPTY, ops).calls[k], ops[j])
  {
    hide Step;
    hide StoredFrom;
    hide SameCall;
    var init, op := ops[..|ops| - 1], ops[|ops| - 1];
    var before := Run(EMPTY, init);
    if k < |before.calls| {
      j := RowsAreRecordings(init, k);
      StepKeepsCall(before, op, k);
      StoredStays(before.calls[k], Run(EMPTY, ops).calls[k], ops[j]);
    } else {
      OnlyRecordingsAdd(before, op);
      RecordStores(before, op);
      j := |ops| - 1;
    }
  }

  lemma OnlyRecordingsAdd(s: State, op: Op)
    requires |Step(s, op).calls| > |s.calls|
    ensures op.RecordOp?
  {
  }

  // ---- the report never overflows on tokens --------------------------------------------

  lemma {:induction false} WindowBelow(calls: seq<ModelCall>, from: Option<int>, to: Option<int>)
    requires AllCovered(calls)
    ensures AllCovered(Window(calls, from, to))
    ensures 0 <= CallColumn(Window(calls, from, to), TOTAL) <= TotalTokens(calls)
  {
    hide TokensCovered;
    hide CallColumn;
    hide TotalTokens;
    hide Window;
    if calls == [] {
      EmptyWindow(from, to);
    } else {
      var init, last := calls[..|calls| - 1], calls[|calls| - 1];
      assert calls == init + [last];
      WindowBelow(init, from, to);
      WindowNext(init, last, from, to);
      TotalCovered(last);
      TotalTokensNext(init, last);
      CallColumnAppend(Window(init, from, to), last, TOTAL);
    }
  }

  lemma EmptyWindow(from: Option<int>, to: Option<int>)
    ensures Window([], from, to) == [] && CallColumn([], TOTAL) == 0 && TotalTokens([]) == 0
  {
  }

  lemma WindowNext(calls: seq<ModelCall>, c: ModelCall, from: Option<int>, to: Option<int>)
    ensures var now, next := Window(calls, from, to), Window(calls + [c], from, to); next == now || next == now + [c]
  {
    assert (calls + [c])[..|calls|] == calls;
  }

  lemma TotalCovered(c: ModelCall)
    requires TokensCovered(c)
    ensures c.columns[TOTAL] >= 0
  {
  }

  lemma {:induction false} WindowDistinct(calls: seq<ModelCall>, from: Option<int>, to: Option<int>)
    requires DistinctIds(calls)
    ensures DistinctIds(Window(calls, from, to))
    ensures forall c :: c in Window(calls, from, to) ==> c in calls
  {
    if calls != [] {
      var init, last := calls[..|calls| - 1], calls[|calls| - 1];
      WindowDistinct(init, from, to);
      var w := Window(init, from, to);
      forall i | 0 <= i < |w| ensures w[i].id != last.id {
        assert w[i] in init;
        var j :| 0 <= j < |init| && init[j] == w[i];
        assert calls[j].id != calls[|calls| - 1].id;
      }
    }
  }

  // Main result on the report: after any run of recordings, over any window and
  // project and the allocations any run of allocation operations keeps, the report
  // fails only for costs.
  lemma UsageNeverOverflowsTokens(sha: AuditChain.Sha, ops: seq<Op>, b: Allocations.Books,
                                  from: Option<int>, to: Option<int>, filter: Usage.Filter)
    requires AllocationRuns.Kept(sha, b)
    ensures var calls, t := Window(Run(EMPTY, ops).calls, from, to), TablesOf(b);
            Reports(calls, t, filter) <==>
            && CostsCount(calls) && Usage.CostFits(JoinRows(calls, UsageSplit(t)), filter)
            && CostGroupsFit(Usage.QualityOf, JoinRows(calls, MeasuredSplit(t)), filter)
  {
    hide Sound;
    hide Reports;
    hide CostsCount;
    hide CostGroupsFit;
    hide Usage.CostFits;
    hide JoinRows;
    hide WholeParts;
    hide UsageParts;
    hide MeasuredParts;
    hide AllocationRuns.Kept;
    hide Run;
    RunsStaySound(ops);
    SoundFacts(Run(EMPTY, ops));
    var calls := Window(Run(EMPTY, ops).calls, from, to);
    WindowBelow(Run(EMPTY, ops).calls, from, to);
    WindowDistinct(Run(EMPTY, ops).calls, from, to);
    forall i | 0 <= i < |calls|
      ensures WholeParts(UsageSplit(TablesOf(b))(calls[i])) && WholeParts(MeasuredSplit(TablesOf(b))(calls[i]))
    {
      KeptSplitsWhole(sha, b, calls[i]);
    }
    FailsOnlyOnCost(calls, TablesOf(b), filter);
  }

  lemma SoundFacts(s: State)
    requires Sound(s)
    ensures AllCovered(s.calls) && DistinctIds(s.calls) && TotalTokens(s.calls) <= MAX_INT64
  {
  }
}
