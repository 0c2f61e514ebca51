/** Model-call rows, their token arithmetic, and the decision RecordModelCall
    takes on an input (internal/storage/sqlite/usage_limits.go and store.go). */
module Calls {
  import opened Basics
  import opened Text

  type Int64 = x: int | -MAX_INT64 - 1 <= x <= MAX_INT64

  datatype Metric = Metric(name: string, value: Option<Int64>, source: string, rawKey: string, confidence: string)

  datatype CallInput = CallInput(
    rawEventId: string, session: string, provider: string, model: string, agent: string, quality: string,
    startedAt: int, project: string,
    input: Int64, output: Int64, reasoning: Int64, cachedInput: Int64, cacheWrite: Int64, cost: Int64,
    metrics: seq<Metric>)

  // The seven stored measurements, in the order the reports read them: input,
  // output, reasoning, cached input and cache write tokens, total tokens, cost.
  const TOTAL := 5
  const COST := 6

  type Columns = s: seq<Int64> | |s| == 7 witness [0, 0, 0, 0, 0, 0, 0]

  // One model_calls row. An empty rawEventId or project stands for SQL NULL.
  datatype ModelCall = ModelCall(
    id: string, rawEventId: string, session: string, project: string, startedAt: int,
    agent: string, provider: string, model: string, quality: string,
    columns: Columns, reconciled: bool)

  // ---- token arithmetic --------------------------------------------------

  // addUsageCount: both counts non-negative and no 64-bit overflow.
  function AddUsageCount(left: Int64, right: Int64): (r: Result<Int64>)
    ensures r.Ok? <==> left >= 0 && right >= 0 && left + right <= MAX_INT64
    ensures r.Ok? ==> r.value == left + right
  {
    if left < 0 || right < 0 then Err("usage counts must not be negative")
    else if left > MAX_INT64 - right then Err("usage count overflow")
    else Ok(left + right)
  }

  function Components(i: CallInput): seq<Int64> {
    [i.input, i.output, i.reasoning, i.cachedInput, i.cacheWrite]
  }

  predicate Countable(s: seq<Int64>) {
    && (forall k :: 0 <= k < |s| ==> s[k] >= 0)
    && Sum(s) <= MAX_INT64
  }

  // The last reported total_tokens observation, or the default.
  function ReportedTotal(metrics: seq<Metric>, default: int): int {
    if metrics == [] then default
    else
      var last := metrics[|metrics| - 1];
      if last.name == "total_tokens" && last.value.Some? then last.value.value
      else ReportedTotal(metrics[..|metrics| - 1], default)
  }

  predicate Observed(m: Metric, total: int) {
    m.value.Some? ==> 0 <= m.value.value <= total
  }

  // What modelCallTotal accepts, and the total it settles on.
  predicate TotalIs(i: CallInput, total: int) {
    && Countable(Components(i))
    && total == ReportedTotal(i.metrics, Sum(Components(i)))
    && Sum(Components(i)) <= total <= MAX_INT64
    && forall k :: 0 <= k < |i.metrics| ==> Observed(i.metrics[k], total)
  }

  function CallTotal(i: CallInput): (r: Option<Int64>)
    ensures r.Some? ==> TotalIs(i, r.value)
    ensures r.None? ==> forall t :: !TotalIs(i, t)
  {
    var total := ReportedTotal(i.metrics, Sum(Components(i)));
    if TotalIs(i, total) then
      SumBoundsTerms(Components(i));
      var accepted: Int64 := total;
      Some(accepted)
    else None
  }

  lemma SumNext(s: seq<Int64>, k: nat)
    requires k < |s|
    ensures Sum(s[..k + 1]) == Sum(s[..k]) + s[k]
  {
    assert s[..k + 1] == s[..k] + [s[k]];
    SumAppend(s[..k], [s[k]]);
  }

  // A prefix that cannot be added up refutes the whole.
  lemma UncountablePrefix(s: seq<Int64>, k: nat)
    requires k < |s| && 0 <= Sum(s[..k])
    requires s[k] < 0 || Sum(s[..k]) + s[k] > MAX_INT64
    ensures !Countable(s)
  {
    if Countable(s) {
      SumNext(s, k);
      SumAppend(s[..k + 1], s[k + 1..]);
      assert s[..k + 1] + s[k + 1..] == s;
      SumBoundsTerms(s[k + 1..]);
    }
  }

  lemma {:induction false} ReportedTotalNext(ms: seq<Metric>, k: nat, default: int)
    requires k < |ms|
    ensures ReportedTotal(ms[..k + 1], default) ==
            if ms[k].name == "total_tokens" && ms[k].value.Some? then ms[k].value.value
            else ReportedTotal(ms[..k], default)
  {
    assert ms[..k + 1][..k] == ms[..k];
  }

  // Why a call's total is refused.
  lemma Refusals(i: CallInput)
    ensures !Countable(Components(i)) ==> CallTotal(i) == None
    ensures var total := ReportedTotal(i.metrics, Sum(Components(i)));
            && (total < Sum(Components(i)) ==> CallTotal(i) == None)
            && forall k :: 0 <= k < |i.metrics| && !Observed(i.metrics[k], total) ==> CallTotal(i) == None
  {
  }

  lemma SettlesOn(i: CallInput, total: Int64)
    requires Countable(Components(i)) && total as int == ReportedTotal(i.metrics, Sum(Components(i)))
    requires Sum(Components(i)) <= total as int && forall k :: 0 <= k < |i.metrics| ==> Observed(i.metrics[k], total)
    ensures TotalIs(i, total)
  {
  }

  lemma TakeAll<T>(s: seq<T>)
    ensures s[..|s|] == s
  {
  }

  // modelCallTotal: the loops over components and observations decide exactly
  // what TotalIs says.
  method ModelCallTotal(i: CallInput) returns (r: Result<Int64>)
    ensures r.Ok? ==> TotalIs(i, r.value)
    ensures r.Err? ==> CallTotal(i) == None
  {
    hide CallTotal;
    hide TotalIs;
    hide Sum;
    hide ReportedTotal;
    hide Countable;
    hide Components;
    hide AddUsageCount;
    Refusals(i);
    var parts := Components(i);
    var components: Int64 := 0;
    SumNone(parts);
    for k := 0 to |parts|
      invariant components == Sum(parts[..k]) >= 0
      invariant forall j :: 0 <= j < k ==> parts[j] >= 0
    {
      SumNext(parts, k);
      var next := AddUsageCount(components, parts[k]);
      if next.Err? {
        UncountablePrefix(parts, k);
        return next;
      }
      components := next.value;
    }
    TakeAll(parts);
    CountableWhole(parts);
    var total: Int64 := components;
    NoneReported(i.metrics, components);
    for k := 0 to |i.metrics|
      invariant total == ReportedTotal(i.metrics[..k], components)
    {
      ReportedTotalNext(i.metrics, k, components);
      if i.metrics[k].name == "total_tokens" && i.metrics[k].value.Some? {
        total := i.metrics[k].value.value;
      }
    }
    TakeAll(i.metrics);
    if total < components {
      return Err("reported total tokens must cover the known disjoint token components");
    }
    for k := 0 to |i.metrics|
      invariant forall j :: 0 <= j < k ==> Observed(i.metrics[j], total)
    {
      if i.metrics[k].value.Some? && (i.metrics[k].value.value < 0 || i.metrics[k].value.value > total) {
        return Err("metric observation must be non-negative and cannot exceed total tokens");
      }
    }
    SettlesOn(i, total);
    r := Ok(total);
  }

  lemma CountableWhole(s: seq<Int64>)
    requires (forall k :: 0 <= k < |s| ==> s[k] >= 0) && Sum(s) <= MAX_INT64
    ensures Countable(s)
  {
  }

  lemma SumNone(s: seq<Int64>)
    ensures Sum(s[..0]) == 0
  {
  }

  lemma NoneReported(ms: seq<Metric>, default: int)
    ensures ReportedTotal(ms[..0], default) == default
  {
  }

  // ---- recording -----------------------------------------------------------

  predicate ValidMetricName(name: string) {
    name in {"input_tokens", "output_tokens", "reasoning_tokens",
             "cached_input_tokens", "cache_write_tokens", "total_tokens"}
  }

  predicate ValidMetric(m: Metric) {
    && m.value.Some? && ValidMetricName(m.name)
    && TrimSpace(m.source) != "" && TrimSpace(m.rawKey) != "" && TrimSpace(m.confidence) != ""
    && m.value.value >= 0
  }

  // Every observation is storable, and no name occurs twice: (call, name) is the
  // primary key of model_call_metrics.
  predicate MetricsStorable(ms: seq<Metric>) {
    && (forall k :: 0 <= k < |ms| ==> ValidMetric(ms[k]))
    && (forall j, k :: 0 <= j < k < |ms| ==> ms[j].name != ms[k].name)
  }

  function Row(i: CallInput, id: string, total: Int64): ModelCall {
    ModelCall(id, i.rawEventId, i.session, i.project, i.startedAt, i.agent, i.provider, i.model,
              if i.quality == "" then "unknown" else i.quality,
              [i.input, i.output, i.reasoning, i.cachedInput, i.cacheWrite, total, i.cost], false)
  }

  function TotalTokens(calls: seq<ModelCall>): int {
    if calls == [] then 0 else TotalTokens(calls[..|calls| - 1]) + calls[|calls| - 1].columns[TOTAL]
  }

  predicate HasCallFor(calls: seq<ModelCall>, rawEventId: string) {
    exists k :: 0 <= k < |calls| && calls[k].rawEventId == rawEventId
  }

  // The row already linked to a raw event; the index on raw_event_id is unique.
  function CallFor(calls: seq<ModelCall>, rawEventId: string): (r: ModelCall)
    requires HasCallFor(calls, rawEventId)
    ensures r in calls && r.rawEventId == rawEventId
  {
    if calls[0].rawEventId == rawEventId then calls[0] else CallFor(calls[1..], rawEventId)
  }

  datatype Outcome = Inserted(row: ModelCall) | Existing(id: string) | Refused

  // What RecordModelCall decides. `keysResolve` says whether the row's foreign
  // keys resolve; the new id is drawn by the caller.
  function Decide(calls: seq<ModelCall>, i: CallInput, id: string, keysResolve: bool): Outcome {
    if CallTotal(i).None? || TrimSpace(i.provider) == "" || TrimSpace(i.model) == "" then Refused
    else if i.rawEventId != "" && HasCallFor(calls, i.rawEventId) then Existing(CallFor(calls, i.rawEventId).id)
    else if TotalTokens(calls) < 0 || TotalTokens(calls) + CallTotal(i).value > MAX_INT64 then Refused
    else if !keysResolve || !MetricsStorable(i.metrics) then Refused
    else Inserted(Row(i, id, CallTotal(i).value))
  }

  // The table RecordModelCall leaves behind.
  function Recorded(calls: seq<ModelCall>, i: CallInput, id: string, keysResolve: bool): seq<ModelCall> {
    match Decide(calls, i, id, keysResolve)
    case Inserted(row) => calls + [row]
    case _ => calls
  }

  // idx_model_calls_raw_event_id: at most one call per raw event.
  predicate OneCallPerEvent(calls: seq<ModelCall>) {
    forall i, j :: 0 <= i < j < |calls| && calls[i].rawEventId != "" ==> calls[i].rawEventId != calls[j].rawEventId
  }

  lemma RecordedKeepsOneCallPerEvent(calls: seq<ModelCall>, i: CallInput, id: string, keysResolve: bool)
    requires OneCallPerEvent(calls)
    ensures OneCallPerEvent(Recorded(calls, i, id, keysResolve))
  {
    var after := Recorded(calls, i, id, keysResolve);
    forall j, k | 0 <= j < k < |after| && after[j].rawEventId != ""
      ensures after[j].rawEventId != after[k].rawEventId
    {
      if k == |calls| {
        assert after[j] == calls[j];
      }
    }
  }

  // ---- what is recorded, field by field -------------------------------------------

  // The last total_tokens observation with a value reports `total`.
  predicate ReportsLast(ms: seq<Metric>, k: nat, total: int) {
    && k < |ms| && ms[k].name == "total_tokens" && ms[k].value.Some? && ms[k].value.value as int == total
    && forall j :: k < j < |ms| && ms[j].name == "total_tokens" ==> ms[j].value.None?
  }

  // The total of a call with these parts: the one reported last, or their sum.
  ghost predicate Settles(i: CallInput, total: int) {
    if ReportsNone(i.metrics) then total == i.input + i.output + i.reasoning + i.cachedInput + i.cacheWrite
    else exists k :: 0 <= k < |i.metrics| && ReportsLast(i.metrics, k, total)
  }

  predicate ReportsNone(ms: seq<Metric>) {
    forall k :: 0 <= k < |ms| && ms[k].name == "total_tokens" ==> ms[k].value.None?
  }

  lemma {:induction false} ReportedLast(ms: seq<Metric>, default: int) returns (k: nat)
    ensures ReportsNone(ms) ==> ReportedTotal(ms, default) == default
    ensures !ReportsNone(ms) ==> ReportsLast(ms, k, ReportedTotal(ms, default))
  {
    k := 0;
    if ms != [] {
      k := |ms| - 1;
      if ms[k].name != "total_tokens" || ms[k].value.None? {
        assert forall j :: 0 <= j < k ==> ms[j] == ms[..k][j];
        k := ReportedLast(ms[..k], default);
      }
    }
  }

  lemma ReportsLastOnce(ms: seq<Metric>, j: nat, x: int, k: nat, y: int)
    requires ReportsLast(ms, j, x) && ReportsLast(ms, k, y)
    ensures x == y
  {
  }

  lemma SettlesOnce(i: CallInput, x: int, y: int)
    requires Settles(i, x) && Settles(i, y)
    ensures x == y
  {
    if !ReportsNone(i.metrics) {
      var j :| 0 <= j < |i.metrics| && ReportsLast(i.metrics, j, x);
      var k :| 0 <= k < |i.metrics| && ReportsLast(i.metrics, k, y);
      ReportsLastOnce(i.metrics, j, x, k, y);
    }
  }

  lemma PartsSum(i: CallInput)
    ensures Sum(Components(i)) == i.input + i.output + i.reasoning + i.cachedInput + i.cacheWrite
  {
    var s := Components(i);
    assert s == [i.input] + ([i.output] + ([i.reasoning] + ([i.cachedInput] + [i.cacheWrite])));
    SumAppend([i.input], [i.output] + ([i.reasoning] + ([i.cachedInput] + [i.cacheWrite])));
    SumAppend([i.output], [i.reasoning] + ([i.cachedInput] + [i.cacheWrite]));
    SumAppend([i.reasoning], [i.cachedInput] + [i.cacheWrite]);
    SumAppend([i.cachedInput], [i.cacheWrite]);
  }

  lemma PartsCountable(i: CallInput)
    ensures Countable(Components(i)) <==>
            && i.input >= 0 && i.output >= 0 && i.reasoning >= 0 && i.cachedInput >= 0 && i.cacheWrite >= 0
            && i.input + i.output + i.reasoning + i.cachedInput + i.cacheWrite <= MAX_INT64
  {
    hide Sum;
    PartsSum(i);
    var s := Components(i);
    assert s[0] == i.input && s[1] == i.output && s[2] == i.reasoning && s[3] == i.cachedInput && s[4] == i.cacheWrite;
  }

  // Main result on totals: a call is accepted under exactly the total that its last
  // total_tokens observation reports or, without one, that its five parts add up to;
  // the total must cover the parts and bound every observation.
  lemma TotalExactly(i: CallInput, total: Int64)
    ensures CallTotal(i) == Some(total) <==>
            && i.input >= 0 && i.output >= 0 && i.reasoning >= 0 && i.cachedInput >= 0 && i.cacheWrite >= 0
            && i.input + i.output + i.reasoning + i.cachedInput + i.cacheWrite <= total
            && Settles(i, total)
            && forall k :: 0 <= k < |i.metrics| && i.metrics[k].value.Some? ==>
                 0 <= i.metrics[k].value.value <= total
  {
    hide Settles;
    hide ReportedTotal;
    hide Countable;
    hide Sum;
    PartsCountable(i);
    PartsSum(i);
    ReportedTotalIsSettled(i);
    var reported := ReportedTotal(i.metrics, Sum(Components(i)));
    if Settles(i, total) {
      SettlesOnce(i, reported, total);
      assert (forall k :: 0 <= k < |i.metrics| && i.metrics[k].value.Some? ==>
                0 <= i.metrics[k].value.value <= total) <==>
             forall k :: 0 <= k < |i.metrics| ==> Observed(i.metrics[k], total);
    }
  }

  lemma ReportedTotalIsSettled(i: CallInput)
    ensures Settles(i, ReportedTotal(i.metrics, Sum(Components(i))))
  {
    hide Sum;
    hide ReportsNone;
    hide ReportsLast;
    PartsSum(i);
    var k := ReportedLast(i.metrics, Sum(Components(i)));
    assert !ReportsNone(i.metrics) ==> ReportsLast(i.metrics, k, ReportedTotal(i.metrics, Sum(Components(i))));
  }

  // A stored row, column by column.
  predicate StoresInput(row: ModelCall, i: CallInput, id: string, total: Int64) {
    && row.id == id && row.rawEventId == i.rawEventId && row.session == i.session && row.project == i.project
    && row.startedAt == i.startedAt && row.agent == i.agent && row.provider == i.provider && row.model == i.model
    && row.quality == (if i.quality == "" then "unknown" else i.quality)
    && row.columns[0] == i.input && row.columns[1] == i.output && row.columns[2] == i.reasoning
    && row.columns[3] == i.cachedInput && row.columns[4] == i.cacheWrite
    && row.columns[5] == total && row.columns[6] == i.cost && !row.reconciled
  }

  // The observations can be stored: each is a non-negative count under one of the six
  // names, says where it comes from, and none is repeated.
  predicate Observable(ms: seq<Metric>) {
    && (forall k :: 0 <= k < |ms| ==>
          && ms[k].name in ["input_tokens", "output_tokens", "reasoning_tokens", "cached_input_tokens",
                            "cache_write_tokens", "total_tokens"]
          && ms[k].value.Some? && ms[k].value.value >= 0
          && TrimSpace(ms[k].source) != "" && TrimSpace(ms[k].rawKey) != "" && TrimSpace(ms[k].confidence) != "")
    && forall j, k :: 0 <= j < |ms| && 0 <= k < |ms| && ms[j].name == ms[k].name ==> j == k
  }

  // Main result on recording: exactly when the input has a total, names a provider and
  // a model, is the first of its raw event, fits under the recorded total and can be
  // stored does the table grow, by one row that holds every field of the input.
  lemma RecordedExactly(calls: seq<ModelCall>, i: CallInput, id: string, keysResolve: bool)
    ensures var after := Recorded(calls, i, id, keysResolve);
            if && CallTotal(i).Some? && TrimSpace(i.provider) != "" && TrimSpace(i.model) != ""
               && (i.rawEventId == "" || forall k :: 0 <= k < |calls| ==> calls[k].rawEventId != i.rawEventId)
               && 0 <= TotalTokens(calls) && TotalTokens(calls) + CallTotal(i).value <= MAX_INT64
               && keysResolve && Observable(i.metrics)
            then |after| == |calls| + 1 && after[..|calls|] == calls
                 && StoresInput(after[|calls|], i, id, CallTotal(i).value)
            else after == calls
  {
    hide CallTotal;
    hide TotalTokens;
    hide TrimSpace;
    assert MetricsStorable(i.metrics) <==> Observable(i.metrics);
  }
}
