/** The model calls a Codex import submits: their token parts, and exactly when the
    import of a clean root log finishes (internal/ingest/codexsession/import.go). */
module CodexCalls {
  import opened Basics
  import opened Text
  import opened Calls
  import opened CodexImport
  import opened CodexResume
  import opened CodexTotals
  import opened CodexClean

  // ---- what is submitted for an interval -------------------------------------------

  function At(d: Counters, i: nat): int
    requires i < 5
  {
    if d[i].Some? then d[i].value as int else 0
  }

  const COUNTER_NAMES := ["input_tokens", "cached_input_tokens", "output_tokens", "reasoning_tokens", "total_tokens"]
  const COUNTER_KEYS := [
    "info.total_token_usage.input_tokens", "info.total_token_usage.cached_input_tokens",
    "info.total_token_usage.output_tokens", "info.total_token_usage.reasoning_output_tokens",
    "info.total_token_usage.total_tokens"]

  function Observation(d: Counters, i: nat): Metric
    requires i < 5
  {
    Metric(COUNTER_NAMES[i], d[i], "codex-session-jsonl", COUNTER_KEYS[i], "reported")
  }

  // The disjoint parts of a recorded call make up its interval: input is fresh and
  // cached input, output is visible and reasoning output, and every counter that is
  // present is observed once as it is.
  predicate Itemized(c: Interval) {
    && c.call.session == c.sample.session && c.call.startedAt == c.sample.at
    && c.call.agent == "codex" && c.call.quality == "agent_reported"
    && c.call.input >= 0 && c.call.cachedInput >= 0 && c.call.output >= 0 && c.call.reasoning >= 0
    && (c.delta[0].Some? ==> c.call.input as int + c.call.cachedInput as int == c.delta[0].value as int)
    && (c.delta[0].None? ==> c.call.input == 0) && c.call.cachedInput as int == At(c.delta, 1)
    && (c.delta[2].Some? ==> c.call.output as int + c.call.reasoning as int == c.delta[2].value as int)
    && (c.delta[2].None? ==> c.call.output == 0) && c.call.reasoning as int == At(c.delta, 3)
    && c.call.cacheWrite == 0 && c.call.cost == 0
    && (c.delta[4].Some? ==> c.total == c.delta[4].value)
    && (forall i: nat :: i < 5 && c.delta[i].Some? ==> Observation(c.delta, i) in c.call.metrics)
    && (forall m :: m in c.call.metrics ==> exists i: nat :: i < 5 && c.delta[i].Some? && m == Observation(c.delta, i))
  }

  lemma MetricIsObservation(d: Counters, i: nat)
    requires i < 5
    ensures MetricOf(d, i) == Observation(d, i)
  {
    assert i == 0 || i == 1 || i == 2 || i == 3 || i == 4;
  }

  lemma {:induction false} MetricsObserve(d: Counters, i: nat)
    requires i <= 5
    ensures forall j: nat :: i <= j < 5 && d[j].Some? ==> Observation(d, j) in MetricsFrom(d, i)
    ensures forall m :: m in MetricsFrom(d, i) ==> exists j: nat :: i <= j < 5 && d[j].Some? && m == Observation(d, j)
    decreases 5 - i
  {
    hide Observation;
    hide MetricOf;
    if i < 5 {
      MetricIsObservation(d, i);
      MetricsObserve(d, i + 1);
    }
  }

  lemma {:induction false} NoTotalReported(ms: seq<Metric>, default: int)
    requires forall k :: 0 <= k < |ms| ==> ms[k].name != "total_tokens"
    ensures ReportedTotal(ms, default) == default
  {
    if ms != [] {
      NoTotalReported(ms[..|ms| - 1], default);
    }
  }

  lemma {:induction false} TotalIsLast(d: Counters, i: nat)
    requires i <= 4 && d[4].Some?
    ensures MetricsFrom(d, i) != [] && MetricsFrom(d, i)[|MetricsFrom(d, i)| - 1] == MetricOf(d, 4)
    decreases 5 - i
  {
    hide MetricOf;
    if i < 4 {
      TotalIsLast(d, i + 1);
    }
  }

  lemma NamesDiffer(i: nat)
    requires i < 4
    ensures COUNTER_NAMES[i] != "total_tokens"
  {
    assert i == 0 || i == 1 || i == 2 || i == 3;
    assert |"total_tokens"| == 12 && |"input_tokens"| == 12 && "input_tokens"[0] == 'i';
  }

  // The total observed is the interval's own.
  lemma ReportedIsCumulative(d: Counters, default: int)
    ensures ReportedTotal(MetricsFrom(d, 0), default) == if d[4].Some? then d[4].value as int else default
  {
    var ms := MetricsFrom(d, 0);
    if d[4].Some? {
      TotalIsLast(d, 0);
    } else {
      MetricsObserve(d, 0);
      forall k | 0 <= k < |ms| ensures ms[k].name != "total_tokens" {
        assert ms[k] in ms;
        var j: nat :| j < 5 && d[j].Some? && ms[k] == Observation(d, j);
        NamesDiffer(j);
      }
      NoTotalReported(ms, default);
    }
  }

  lemma PartsSum(i: CallInput)
    ensures Sum(Components(i)) ==
            i.input as int + i.output as int + i.reasoning as int + i.cachedInput as int + i.cacheWrite as int
  {
    var s := Components(i);
    PartsFrom(s, 4);
    PartsFrom(s, 3);
    PartsFrom(s, 2);
    PartsFrom(s, 1);
    PartsFrom(s, 0);
    assert s[0..] == s && s[5..] == [];
  }

  lemma PartsFrom(s: seq<Int64>, k: nat)
    requires k < |s|
    ensures Sum(s[k..]) == s[k] as int + Sum(s[k + 1..])
  {
    assert s[k..][1..] == s[k + 1..];
  }

  lemma IntervalItemized(e: Evidence, s: Sample, delta: Counters, base: Base, total: Int64, a: Attribution)
    requires AcceptedTotal(e, delta) == Some(total)
    ensures Itemized(IntervalOf(s, delta, base, total, a))
    ensures var c := IntervalOf(s, delta, base, total, a).call;
            c.provider == a.provider && c.model == a.model && c.project == a.project
  {
    hide MetricsFrom;
    hide Observation;
    hide ReportedTotal;
    hide Sum;
    MetricsObserve(delta, 0);
    ReportedIsCumulative(delta, Sum(Components(DeltaInput(delta))));
  }

  // ---- over imports ----------------------------------------------------------------

  predicate ItemizedFrom(calls: seq<Interval>, n: nat) {
    forall k :: n <= k < |calls| ==> Itemized(calls[k])
  }

  lemma PerformItemizes(r: Run, action: Action, n: nat)
    requires ItemizedFrom(r.e.calls, n)
    ensures ItemizedFrom(Perform(r, action).e.calls, n)
  {
    hide PlanFor;
    hide AcceptedTotal;
    hide Itemized;
    if action.Offer? {
      var plan := PlanFor(r.e, action.sample, action.delta, action.base);
      if plan.Store? {
        var e := Appended(r.e, action.sample);
        if AcceptedTotal(e, plan.delta).Some? {
          IntervalItemized(e, action.sample, plan.delta, plan.base, AcceptedTotal(e, plan.delta).value,
            action.attribution);
        }
      }
    }
  }

  lemma {:induction false} RunItemizes(r: Run, lines: seq<Line>, i: nat, resolve: Resolver, n: nat)
    requires i <= |lines| && ItemizedFrom(r.e.calls, n)
    ensures ItemizedFrom(RunLines(r, lines[..i], resolve).e.calls, n)
  {
    hide Perform;
    hide Act;
    hide ItemizedFrom;
    if i > 0 {
      RunItemizes(r, lines, i - 1, resolve, n);
      RunLinesNext(r, lines, i - 1, resolve);
      var q := RunLines(r, lines[..i - 1], resolve);
      PerformItemizes(q, Act(q.m, lines[i - 1], Ask(q.e, SampleOf(q.m, lines[i - 1])), resolve), n);
    } else {
      NoLinesRead(r, lines, resolve);
    }
  }

  lemma NoLinesRead(r: Run, lines: seq<Line>, resolve: Resolver)
    ensures RunLines(r, lines[..0], resolve) == r
  {
  }

  // Main result: whatever an import reads and wherever it dies, every call it records
  // is itemized so.
  lemma RecordedCallsAreItemized(e: Evidence, lines: seq<Line>, budget: Option<nat>, resolve: Resolver, k: nat)
    requires |e.calls| <= k < |Import(e, lines, budget, resolve).e.calls|
    ensures Itemized(Import(e, lines, budget, resolve).e.calls[k])
  {
    hide Itemized;
    hide RunLines;
    assert lines[..|lines|] == lines;
    RunItemizes(Start(e, budget), lines, |lines|, resolve, |e.calls|);
  }

  // ---- when a clean import finishes -------------------------------------------------

  // Input and output together are covered by the total; where a counter is absent
  // its own part counts.
  predicate Adequate(d: Counters) {
    (if d[0].Some? then At(d, 0) else At(d, 1)) + (if d[2].Some? then At(d, 2) else At(d, 3)) <= At(d, 4)
  }

  lemma AcceptsExactly(e: Evidence, d: Counters)
    requires SubsetsFit(d) && NonNegative(d) && d[4].Some?
    ensures AcceptedTotal(e, d).Some? <==>
            Adequate(d) && e.others + RecordedTokens(e.calls) + d[4].value as int <= MAX_INT64
    ensures AcceptedTotal(e, d).Some? ==> AcceptedTotal(e, d).value == d[4].value
  {
    hide MetricsFrom;
    hide ReportedTotal;
    hide RecordedTokens;
    hide Sum;
    var i := DeltaInput(d);
    PartsSum(i);
    ReportedIsCumulative(d, Sum(Components(i)));
    MetricsObserve(d, 0);
    var total := d[4].value as int;
    if Adequate(d) {
      assert Countable(Components(i));
      forall k | 0 <= k < |i.metrics| ensures Observed(i.metrics[k], total) {
        assert i.metrics[k] in i.metrics;
        var j: nat :| j < 5 && d[j].Some? && i.metrics[k] == Observation(d, j);
        assert j == 0 || j == 1 || j == 2 || j == 3 || j == 4;
      }
      assert TotalIs(i, total);
    }
  }

  // Nothing in the log stops a reader: lines decode, and totals carry a time.
  predicate Readable(lines: seq<Line>) {
    forall k :: 0 <= k < |lines| ==>
      && !lines[k].Unreadable? && !lines[k].Invalid? && !lines[k].BadEvent?
      && (lines[k].SessionMeta? ==> lines[k].meta.Some?) && (lines[k].TurnContext? ==> lines[k].turn.Some?)
      && (lines[k].TokenCount? && lines[k].usage.Some? && lines[k].usage.value[4].Some? ==> lines[k].at.Some?)
  }

  predicate Resolves(cwd: string, resolve: Resolver) {
    TrimSpace(cwd) == "" || resolve(TrimSpace(cwd)).Some?
  }

  // Every working directory the log names resolves to a project.
  predicate Resolvable(lines: seq<Line>, resolve: Resolver) {
    forall k :: 0 <= k < |lines| ==>
      && (lines[k].SessionMeta? && lines[k].meta.Some? ==> Resolves(lines[k].meta.value.cwd, resolve))
      && (lines[k].TurnContext? && lines[k].turn.Some? ==> Resolves(lines[k].turn.value.cwd, resolve))
  }

  predicate Located(m: Machine, resolve: Resolver) {
    m.meta.Some? ==> Resolves(m.meta.value.cwd, resolve)
  }

  lemma QuietGoes(r: Run, line: Line, resolve: Resolver, session: Option<string>)
    requires r.status == Going && HeadedBy(r.m, session) && RootLog([line]) && !(session.Some? && Delivers(line))
    requires Readable([line]) && Resolvable([line], resolve) && !line.Partial? && Located(r.m, resolve)
    ensures var t := StepLine(r, line, resolve);
            t.status == Going && t.e == r.e && Located(t.m, resolve)
  {
    hide TrimSpace;
    hide CountTokens;
    assert line == [line][0];
    QuietStep(r, line, resolve, session);
  }

  lemma GrowthCounts(now: Counters, before: Option<Counters>)
    requires Continues(now, before) && Difference(now, before).Some?
    ensures var d := Difference(now, before).value;
            && SubsetsFit(d) && NonNegative(d) && d[4].Some?
            && d[4].value as int == OrZero(now[4]) as int - From(before, 4)
  {
    var d := Delta(now, before);
    GrowthLaw(now, before, 4);
    forall i | 0 <= i < 5 && d[i].Some? ensures d[i].value >= 0 {
      GrowthLaw(now, before, i);
      assert !Reset(now, before, i);
    }
  }

  // A changed snapshot is recorded exactly when its growth is adequate and fits.
  lemma SnapshotGoes(r: Run, session: string, samples: seq<Snapshot>, line: Line, resolve: Resolver)
    requires Delivers(line) && Clean(samples + [SnapshotOf(line)])
    requires Standing(r, session, samples) && r.status == Going && HeadedBy(r.m, Some(session)) && Located(r.m, resolve)
    ensures var t, d := StepLine(r, line, resolve), Difference(line.usage.value, LastUsage(samples));
            && t.m.meta == r.m.meta
            && (d.None? ==> t.status == Going && t.e == r.e)
            && (d.Some? ==>
                  && (t.status == Going <==>
                        Adequate(d.value) && r.e.others + RecordedTokens(r.e.calls) + At(d.value, 4) <= MAX_INT64)
                  && (t.status == Going ==>
                        && t.e.others == r.e.others
                        && RecordedTokens(t.e.calls) == RecordedTokens(r.e.calls) + At(d.value, 4)))
  {
    hide Act;
    hide SampleOf;
    hide Clean;
    hide Continues;
    hide Difference;
    hide CallsStand;
    hide Mine;
    hide Expected;
    hide PlanFor;
    hide StoreInterval;
    hide OrUnavailable;
    hide TrimSpace;
    hide RecordedTokens;
    hide AcceptedTotal;
    hide Adequate;
    var s := SnapshotOf(line);
    var sample, meta := Sample(session, s.at, s.usage), r.m.meta.value;
    SnapshotActs(r.m, session, line, Ask(r.e, sample), resolve);
    CleanStep(r, session, samples, line, resolve);
    CleanNext(samples, s);
    var delta := Difference(s.usage, LastUsage(samples));
    if delta.Some? {
      var a := Attribution(OrUnavailable(meta.provider), OrUnavailable(meta.model), ProjectOf(meta, resolve).value);
      CleanPlan(r.e, session, samples, s, delta.value);
      GrowthCounts(s.usage, LastUsage(samples));
      StoreGoes(r.(m := Rebase(r.m, s.usage, s.at)), sample, delta.value,
        Base(LastTime(samples), LastUsage(samples)), a);
    }
  }

  lemma StoreGoes(r: Run, s: Sample, d: Counters, base: Base, a: Attribution)
    requires r.status == Going && r.budget == None && SubsetsFit(d) && NonNegative(d) && d[4].Some?
    ensures var t := StoreInterval(r, s, d, base, a);
            && (t.status == Going <==> Adequate(d) && r.e.others + RecordedTokens(r.e.calls) + At(d, 4) <= MAX_INT64)
            && (t.status == Going ==>
                  t.e.others == r.e.others && RecordedTokens(t.e.calls) == RecordedTokens(r.e.calls) + At(d, 4))
  {
    hide AcceptedTotal;
    hide Adequate;
    var e := Appended(r.e, s);
    AcceptsExactly(e, d);
    if AcceptedTotal(e, d).Some? {
      var c := IntervalOf(s, d, base, AcceptedTotal(e, d).value, a);
      assert (e.calls + [c])[..|e.calls|] == e.calls;
    }
  }

  // What the log asks of totals and of the capacity left.
  predicate Affordable(e: Evidence, session: string, samples: seq<Snapshot>) {
    && (forall k :: 0 <= k < |Expected(session, samples)| ==> Adequate(Expected(session, samples)[k].delta))
    && (samples != [] ==> e.others + RecordedTokens(e.calls) + From(LastUsage(samples), 4) <= MAX_INT64)
  }

  lemma AffordableNext(e: Evidence, session: string, samples: seq<Snapshot>, s: Snapshot)
    requires Clean(samples + [s])
    ensures var d := Difference(s.usage, LastUsage(samples));
            && (d.None? ==> From(Some(s.usage), 4) == From(LastUsage(samples), 4))
            && (d.Some? ==> From(Some(s.usage), 4) == From(LastUsage(samples), 4) + At(d.value, 4))
            && (Affordable(e, session, samples + [s]) <==>
                  Affordable(e, session, samples)
                  && (d.Some? ==> Adequate(d.value)
                                  && e.others + RecordedTokens(e.calls) + From(Some(s.usage), 4) <= MAX_INT64))
  {
    hide Clean;
    hide Continues;
    hide Difference;
    hide Adequate;
    hide Expected;
    hide RecordedTokens;
    CleanNext(samples, s);
    CleanDifference(s.usage, LastUsage(samples));
    ExpectedNext(session, samples, s);
    var d := Difference(s.usage, LastUsage(samples));
    var before, after := Expected(session, samples), Expected(session, samples + [s]);
    LastOfNext(samples, s);
    assert before + [] == before;
    if d.Some? {
      GrowthCounts(s.usage, LastUsage(samples));
      assert after == before + [Entry(Sample(session, s.at, s.usage), d.value)];
      assert after[|before|].delta == d.value && d.value[4].value >= 0;
      assert forall k :: 0 <= k < |before| ==> after[k] == before[k];
    }
  }

  // A run over such a log, as far as it went.
  ghost predicate Affording(r: Run, e: Evidence, session: string, samples: seq<Snapshot>, resolve: Resolver) {
    && (r.status == Going <==> Affordable(e, session, samples))
    && (r.status == Going ==>
          && r.e.others == e.others && Located(r.m, resolve)
          && RecordedTokens(r.e.calls) == RecordedTokens(e.calls) + From(LastUsage(samples), 4))
  }

  lemma AffordingStep(r: Run, e: Evidence, line: Line, resolve: Resolver, session: string, head: Option<string>,
      samples: seq<Snapshot>)
    requires RootLog([line]) && Readable([line]) && Resolvable([line], resolve) && !line.Partial?
    requires Standing(r, session, samples) && (r.status == Going ==> HeadedBy(r.m, head))
    requires (head.Some? ==> head.value == session) && Affording(r, e, session, samples, resolve)
    requires Clean(samples + if head.Some? && Delivers(line) then [SnapshotOf(line)] else [])
    ensures Affording(StepLine(r, line, resolve), e, session,
                      samples + if head.Some? && Delivers(line) then [SnapshotOf(line)] else [], resolve)
  {
    hide Clean;
    hide Standing;
    hide Affordable;
    hide RecordedTokens;
    hide Readable;
    hide Resolvable;
    hide Resolves;
    hide RootLog;
    assert samples + [] == samples;
    if head.Some? && Delivers(line) {
      AffordableNext(e, session, samples, SnapshotOf(line));
      if r.status == Going {
        SnapshotGoes(r, session, samples, line, resolve);
      }
      LastOfNext(samples, SnapshotOf(line));
      hide Perform;
    } else if r.status == Going {
      QuietGoes(r, line, resolve, head);
      hide Perform;
    }
  }

  lemma LastOfNext(samples: seq<Snapshot>, s: Snapshot)
    ensures LastUsage(samples + [s]) == Some(s.usage)
  {
  }

  lemma {:induction false} AffordingRun(e: Evidence, lines: seq<Line>, n: nat, resolve: Resolver, session: string)
    requires n <= |lines| && RootLog(lines) && Clean(SnapshotsOf(lines[..n])) && Untouched(e, session)
    requires SessionOf(lines[..n]).Some? ==> SessionOf(lines[..n]).value == session
    requires Readable(lines) && Resolvable(lines, resolve) && forall k :: 0 <= k < n ==> !lines[k].Partial?
    ensures Affording(Cut(e, lines, n, None, resolve), e, session, SnapshotsOf(lines[..n]), resolve)
  {
    hide Clean;
    hide StepLine;
    hide RunLines;
    hide SnapshotsOf;
    hide SessionOf;
    hide Delivers;
    hide RootLog;
    hide Standing;
    hide Affording;
    hide Expected;
    if n == 0 {
      NoLines(e, lines, resolve, session);
      NothingSpent(e, session, resolve);
    } else {
      var before, line := SnapshotsOf(lines[..n - 1]), lines[n - 1];
      assert [line][0] == line;
      LinesNext(lines, n - 1);
      RunLinesNext(Start(e, None), lines, n - 1, resolve);
      if SnapshotsOf(lines[..n]) != before { CleanNext(before, SnapshotOf(line)); }
      CleanRun(e, lines, n - 1, resolve, session);
      AffordingRun(e, lines, n - 1, resolve, session);
      AffordingStep(Cut(e, lines, n - 1, None, resolve), e, line, resolve, session, SessionOf(lines[..n - 1]), before);
    }
  }

  lemma NothingSpent(e: Evidence, session: string, resolve: Resolver)
    ensures Affording(Start(e, None), e, session, [], resolve)
  {
  }

  // Main result: the import of a readable clean root log whose directories resolve
  // finishes exactly when each growth's total covers its input and output, and the
  // last total fits what capacity is left.
  lemma CleanImportFinishes(e: Evidence, lines: seq<Line>, resolve: Resolver, session: string)
    requires RootLog(lines) && Ended(lines) && SessionOf(lines) == Some(session)
    requires Clean(SnapshotsOf(lines)) && Untouched(e, session) && Readable(lines) && Resolvable(lines, resolve)
    ensures Import(e, lines, None, resolve).status == Finished <==> Affordable(e, session, SnapshotsOf(lines))
  {
    hide Import;
    hide Cut;
    hide Clean;
    hide RootLog;
    hide SnapshotsOf;
    hide SessionOf;
    hide Affordable;
    hide Readable;
    hide Resolvable;
    hide Standing;
    WholeIsAll(e, lines, resolve);
    CleanRun(e, lines, Whole(lines), resolve, session);
    AffordingRun(e, lines, Whole(lines), resolve, session);
  }

  // ---- the interval between two snapshots ------------------------------------------------

  // A counter of the interval: the growth since the earlier snapshot, all of it when there
  // is none, and nothing for a counter that is missing from either. Counters do not shrink.
  predicate Grows(now: Option<Int64>, earlier: Option<Counters>, i: nat, grown: Option<Int64>)
    requires i < 5
  {
    if now.None? then grown.None?
    else
      && now.value >= 0
      && if earlier.None? then grown == now
         else if earlier.value[i].None? then grown.None?
         else 0 <= earlier.value[i].value <= now.value
              && grown.Some? && grown.value as int == now.value as int - earlier.value[i].value as int
  }

  lemma GrowsExactly(now: Counters, earlier: Option<Counters>, i: nat, grown: Option<Int64>)
    requires i < 5
    ensures Grows(now[i], earlier, i, grown) <==> !Reset(now, earlier, i) && Growth(now, earlier, i) == grown
  {
  }

  // Main result on intervals: there is one between two snapshots exactly when no counter
  // shrank or is negative, cached input is within the input and reasoning within the output,
  // some counter is there and, after an earlier snapshot, some counter grew.
  lemma DifferenceExactly(now: Counters, earlier: Option<Counters>, d: Counters)
    ensures Difference(now, earlier) == Some(d) <==>
            && Grows(now[0], earlier, 0, d[0]) && Grows(now[1], earlier, 1, d[1]) && Grows(now[2], earlier, 2, d[2])
            && Grows(now[3], earlier, 3, d[3]) && Grows(now[4], earlier, 4, d[4])
            && (d[0].Some? && d[1].Some? ==> d[1].value <= d[0].value)
            && (d[2].Some? && d[3].Some? ==> d[3].value <= d[2].value)
            && (exists i :: 0 <= i < 5 && d[i].Some?)
            && (earlier.Some? ==> exists i :: 0 <= i < 5 && d[i].Some? && d[i].value != 0)
  {
    hide Grows;
    hide Reset;
    hide Growth;
    GrowsExactly(now, earlier, 0, d[0]);
    GrowsExactly(now, earlier, 1, d[1]);
    GrowsExactly(now, earlier, 2, d[2]);
    GrowsExactly(now, earlier, 3, d[3]);
    GrowsExactly(now, earlier, 4, d[4]);
    if ResetFree(now, earlier) {
      assert !Reset(now, earlier, 0) && !Reset(now, earlier, 1) && !Reset(now, earlier, 2) && !Reset(now, earlier, 3)
             && !Reset(now, earlier, 4);
      var x := Delta(now, earlier);
      assert x == d <==> x[0] == d[0] && x[1] == d[1] && x[2] == d[2] && x[3] == d[3] && x[4] == d[4];
    } else {
      var i: nat :| i < 5 && Reset(now, earlier, i);
      assert i == 0 || i == 1 || i == 2 || i == 3 || i == 4;
    }
  }

  // ---- what an import counts ---------------------------------------------------------------

  function UsageLines(lines: seq<Line>): nat {
    if lines == [] then 0
    else UsageLines(lines[..|lines| - 1]) + if lines[|lines| - 1].TokenCount? then 1 else 0
  }

  function Counted(r: Run): nat {
    r.samples + r.duplicates + r.skipped
  }

  // What a step that goes on adds: one to the counts for a usage line, an event for each
  // sample, and a call for each sample and no more than the duplicates besides.
  predicate StepCounts(r: Run, t: Run, n: nat) {
    && Counted(t) == Counted(r) + n
    && |t.e.raws| == |r.e.raws| + t.samples - r.samples
    && t.samples - r.samples <= |t.e.calls| - |r.e.calls| <= t.samples - r.samples + t.duplicates - r.duplicates
    && r.e.raws <= t.e.raws && r.e.calls <= t.e.calls
    && forall k :: |r.e.calls| <= k < |t.e.calls| ==> t.e.calls[k].sample in t.e.raws
  }

  lemma OfferCounts(r: Run, s: Sample, d: Counters, base: Base, a: Attribution)
    requires r.status == Going
    ensures Persist(r, s, d, base, a).status == Going ==> StepCounts(r, Persist(r, s, d, base, a), 1)
  {
    hide AcceptedTotal;
    hide Checkpoint;
    hide Difference;
    hide Linked;
    hide MetricsFrom;
  }

  lemma ActCounts(m: Machine, line: Line, answer: Answer, resolve: Resolver)
    ensures var action := Act(m, line, answer, resolve);
            && (action.Move? ==> action.skipped + action.duplicates == if line.TokenCount? then 1 else 0)
            && (action.Offer? ==> line.TokenCount?)
            && (action.Halt? ==> action.status == Failed || (action.status == Finished && line.Partial?))
            && (action.Halt? ==> action.skipped == if line.Partial? then 1 else 0)
  {
    hide Difference;
    hide ProjectOf;
    hide SameCounters;
    hide OrUnavailable;
    hide TakeMeta;
    hide TakeTurn;
  }

  lemma LineCounts(r: Run, line: Line, resolve: Resolver)
    requires r.status == Going && StepLine(r, line, resolve).status == Going
    ensures StepCounts(r, StepLine(r, line, resolve), if line.TokenCount? then 1 else 0)
  {
    hide Act;
    hide Persist;
    hide StepCounts;
    var action := Act(r.m, line, Ask(r.e, SampleOf(r.m, line)), resolve);
    ActCounts(r.m, line, Ask(r.e, SampleOf(r.m, line)), resolve);
    match action
    case Move(m, skipped, duplicates) => MoveCounts(r, m, skipped, duplicates);
    case Halt(m, status, skipped) =>
    case Offer(m, s, d, base, a) =>
      OfferCounts(r.(m := m), s, d, base, a);
      SameCounts(r, m, Persist(r.(m := m), s, d, base, a));
  }

  lemma MoveCounts(r: Run, m: Machine, skipped: nat, duplicates: nat)
    ensures StepCounts(r, r.(m := m, skipped := r.skipped + skipped, duplicates := r.duplicates + duplicates),
                       skipped + duplicates)
  {
  }

  lemma SameCounts(r: Run, m: Machine, t: Run)
    requires StepCounts(r.(m := m), t, 1)
    ensures StepCounts(r, t, 1)
  {
  }

  lemma CountsAdd(r: Run, s: Run, t: Run, m: nat, n: nat)
    requires StepCounts(r, s, m) && StepCounts(s, t, n)
    ensures StepCounts(r, t, m + n)
  {
    forall k | |r.e.calls| <= k < |t.e.calls| ensures t.e.calls[k].sample in t.e.raws {
      if k < |s.e.calls| {
        assert t.e.calls[k] == s.e.calls[k];
        var j :| 0 <= j < |s.e.raws| && s.e.raws[j] == s.e.calls[k].sample;
        assert t.e.raws[j] == s.e.raws[j];
      }
    }
  }

  lemma {:induction false} RunCounts(r: Run, lines: seq<Line>, resolve: Resolver)
    requires r.status == Going && RunLines(r, lines, resolve).status == Going
    ensures StepCounts(r, RunLines(r, lines, resolve), UsageLines(lines))
  {
    hide StepLine;
    hide StepCounts;
    if lines == [] {
      MoveCounts(r, r.m, 0, 0);
    } else {
      var init, line := lines[..|lines| - 1], lines[|lines| - 1];
      var s := RunLines(r, init, resolve);
      StoppedStays(s, line, resolve);
      RunCounts(r, init, resolve);
      LineCounts(s, line, resolve);
      CountsAdd(r, s, StepLine(s, line, resolve), UsageLines(init), if line.TokenCount? then 1 else 0);
    }
  }

  lemma StoppedStays(r: Run, line: Line, resolve: Resolver)
    requires StepLine(r, line, resolve).status == Going
    ensures r.status == Going
  {
    hide Act;
    hide Persist;
  }

  function Unfinished(lines: seq<Line>): nat {
    if lines != [] && lines[|lines| - 1].Partial? then 1 else 0
  }

  // Main result on counting: an import that reads its whole log accounts for each usage
  // line exactly once, as a new sample, a duplicate or skipped, and skips an unfinished
  // last line; it adds one raw event for each new sample, and a call for each new sample,
  // of a stored event.
  lemma EveryUsageLineIsCounted(e: Evidence, lines: seq<Line>, budget: Option<nat>, resolve: Resolver)
    requires Import(e, lines, budget, resolve).status == Finished
    requires forall i :: 0 <= i < |lines| - 1 ==> !lines[i].Partial?
    ensures var r := Import(e, lines, budget, resolve);
            && r.samples + r.duplicates + r.skipped == UsageLines(lines) + Unfinished(lines)
            && e.raws <= r.e.raws && |r.e.raws| == |e.raws| + r.samples
            && e.calls <= r.e.calls && r.samples <= |r.e.calls| - |e.calls| <= r.samples + r.duplicates
            && forall k :: |e.calls| <= k < |r.e.calls| ==> r.e.calls[k].sample in r.e.raws
  {
    hide StepLine;
    var start := Start(e, budget);
    if Unfinished(lines) == 1 {
      var init := lines[..|lines| - 1];
      GoesToTheEnd(start, init, resolve);
      UnfinishedEnds(RunLines(start, init, resolve), lines[|lines| - 1], resolve);
      RunCounts(start, init, resolve);
    } else {
      GoesToTheEnd(start, lines, resolve);
      RunCounts(start, lines, resolve);
    }
  }

  lemma UnfinishedEnds(r: Run, line: Line, resolve: Resolver)
    requires line.Partial? && r.status != Finished
    ensures StepLine(r, line, resolve).status == Finished ==>
              r.status == Going && StepLine(r, line, resolve) == r.(status := Finished, skipped := r.skipped + 1)
    ensures StepLine(r, line, resolve).status != Going
  {
  }

  // Only an unfinished line finishes a run before its log ends.
  lemma {:induction false} GoesToTheEnd(r: Run, lines: seq<Line>, resolve: Resolver)
    requires r.status != Finished && forall i :: 0 <= i < |lines| ==> !lines[i].Partial?
    ensures RunLines(r, lines, resolve).status != Finished
  {
    hide StepLine;
    if lines != [] {
      GoesToTheEnd(r, lines[..|lines| - 1], resolve);
      NotFinished(RunLines(r, lines[..|lines| - 1], resolve), lines[|lines| - 1], resolve);
    }
  }

  lemma NotFinished(r: Run, line: Line, resolve: Resolver)
    requires r.status != Finished && !line.Partial?
    ensures StepLine(r, line, resolve).status != Finished
  {
    hide Act;
    hide PlanFor;
    hide AcceptedTotal;
    ActCounts(r.m, line, Ask(r.e, SampleOf(r.m, line)), resolve);
  }

  // A session has a checkpoint exactly when a call is recorded for a sample of it at a
  // time that is not zero.
  lemma CheckpointExactly(e: Evidence, session: string)
    ensures Checkpoint(e, session).Some? <==>
            exists k :: 0 <= k < |e.calls| && e.calls[k].sample.session == session && e.calls[k].sample.at > 0
    ensures Checkpoint(e, session).Some? ==>
              && Checkpoint(e, session).value.at > 0 && Checkpoint(e, session).value.session == session
              && (exists k :: 0 <= k < |e.calls| && e.calls[k].sample == Checkpoint(e, session).value)
              && forall k :: 0 <= k < |e.calls| && e.calls[k].sample.session == session ==>
                   e.calls[k].sample.at <= Checkpoint(e, session).value.at
  {
    LatestIsNewest(e.calls, session);
    hide Latest;
  }
}
