/** What the recorded intervals of a Codex session add up to. */
module CodexTotals {
  import opened Basics
  import opened Calls
  import opened CodexImport
  import opened CodexResume

  // ---- any sequence of imports -----------------------------------------------------

  // One import of some log, possibly cut short.
  datatype Job = Job(lines: seq<Line>, budget: Option<nat>, resolve: Resolver)

  function After(e: Evidence, jobs: seq<Job>): Evidence {
    if jobs == [] then e
    else
      var last := jobs[|jobs| - 1];
      Import(After(e, jobs[..|jobs| - 1]), last.lines, last.budget, last.resolve).e
  }

  predicate PositiveTimes(lines: seq<Line>) {
    forall i :: 0 <= i < |lines| && Timed(lines[i]) ==> lines[i].at.value > 0
  }

  // ---- intervals do not overlap --------------------------------------------------------

  // Each interval starts no earlier than every earlier one of its session ended.
  predicate Apart(calls: seq<Interval>) {
    && (forall k :: 0 <= k < |calls| ==> calls[k].sample.at > 0)
    && (forall j, k :: 0 <= j < k < |calls| && calls[j].sample.session == calls[k].sample.session ==>
          calls[j].sample.at <= calls[k].base.at && calls[j].sample.at < calls[k].sample.at)
  }

  // A planned interval starts after everything its session has recorded.
  lemma PlanStartsLater(e: Evidence, s: Sample, delta: Counters, base: Base, k: int)
    requires Apart(e.calls) && 0 <= k < |e.calls| && e.calls[k].sample.session == s.session
    ensures var plan := PlanFor(e, s, delta, base);
            plan.Store? ==>
                  e.calls[k].sample.at <= plan.base.at && e.calls[k].sample.at < s.at && Checkpoint(e, s.session).Some?
  {
    hide Latest;
    hide Difference;
    LatestIsNewest(e.calls, s.session);
  }

  // What a step records: an interval of the line's sample, as planned.
  lemma PerformPlans(r: Run, action: Action)
    ensures var before, after := r.e.calls, Perform(r, action).e.calls;
            after == before
            || (action.Offer?
                && var plan := PlanFor(r.e, action.sample, action.delta, action.base);
                   plan.Store? && |after| == |before| + 1 && before == after[..|before|]
                   && after[|before|].sample == action.sample
                   && after[|before|].delta == plan.delta && after[|before|].base == plan.base)
  {
    hide AcceptedTotal;
    hide PlanFor;
  }

  lemma ApartNext(calls: seq<Interval>, c: Interval)
    requires Apart(calls) && c.sample.at > 0
    requires forall k :: 0 <= k < |calls| && calls[k].sample.session == c.sample.session ==>
               calls[k].sample.at <= c.base.at && calls[k].sample.at < c.sample.at
    ensures Apart(calls + [c])
  {
  }

  lemma PerformKeepsApart(r: Run, action: Action)
    requires Apart(r.e.calls) && (action.Offer? ==> action.sample.at > 0)
    ensures Apart(Perform(r, action).e.calls)
  {
    hide Perform;
    PerformPlans(r, action);
    var after := Perform(r, action).e.calls;
    if after != r.e.calls {
      var c := after[|r.e.calls|];
      forall k | 0 <= k < |r.e.calls| && r.e.calls[k].sample.session == c.sample.session
        ensures r.e.calls[k].sample.at <= c.base.at && r.e.calls[k].sample.at < c.sample.at
      {
        PlanStartsLater(r.e, action.sample, action.delta, action.base, k);
      }
      hide PlanFor;
      ApartNext(r.e.calls, c);
      assert after == r.e.calls + [c];
    }
  }

  lemma StepKeepsApart(r: Run, line: Line, resolve: Resolver)
    requires Apart(r.e.calls) && (Timed(line) ==> line.at.value > 0)
    ensures Apart(StepLine(r, line, resolve).e.calls)
  {
    if r.status == Going {
      var answer := Ask(r.e, SampleOf(r.m, line));
      OfferIsOfLine(r.m, line, answer, resolve);
      hide Act;
      hide Perform;
      hide Ask;
      PerformKeepsApart(r, Act(r.m, line, answer, resolve));
    }
  }

  lemma {:induction false} RunKeepsApart(r: Run, lines: seq<Line>, i: nat, resolve: Resolver)
    requires i <= |lines| && Apart(r.e.calls) && PositiveTimes(lines)
    ensures Apart(RunLines(r, lines[..i], resolve).e.calls)
  {
    hide StepLine;
    if i > 0 {
      RunKeepsApart(r, lines, i - 1, resolve);
      RunLinesNext(r, lines, i - 1, resolve);
      StepKeepsApart(RunLines(r, lines[..i - 1], resolve), lines[i - 1], resolve);
    } else {
      assert lines[..0] == [];
    }
  }

  lemma {:induction false} JobsKeepApart(e: Evidence, jobs: seq<Job>)
    requires Apart(e.calls) && forall j :: 0 <= j < |jobs| ==> PositiveTimes(jobs[j].lines)
    ensures Apart(After(e, jobs).calls)
  {
    if jobs != [] {
      var last := jobs[|jobs| - 1];
      JobsKeepApart(e, jobs[..|jobs| - 1]);
      RunKeepsApart(Start(After(e, jobs[..|jobs| - 1]), last.budget), last.lines, |last.lines|, last.resolve);
      assert last.lines[..|last.lines|] == last.lines;
    }
  }

  predicate Covers(c: Interval, t: Instant) {
    c.base.at < t <= c.sample.at
  }

  // Main result: over any sequence of imports of any logs, complete or cut short,
  // failed or not, no instant of a session is counted by two recorded intervals.
  lemma IntervalsAreDisjoint(jobs: seq<Job>, others: nat, j: int, k: int, t: Instant)
    requires forall i :: 0 <= i < |jobs| ==> PositiveTimes(jobs[i].lines)
    requires var calls := After(Evidence({}, [], [], others), jobs).calls;
             0 <= j < k < |calls| && calls[j].sample.session == calls[k].sample.session
    ensures var calls := After(Evidence({}, [], [], others), jobs).calls;
            !(Covers(calls[j], t) && Covers(calls[k], t))
  {
    JobsKeepApart(Evidence({}, [], [], others), jobs);
  }

  // ---- recorded totals stay within the counters ---------------------------------------------

  // A session's cumulative counters over time: non-negative and never decreasing.
  type Log = map<Instant, Counters>

  predicate MonotoneLog(log: Log) {
    && (forall t, i :: t in log && 0 <= i < 5 && log[t][i].Some? ==> t > 0 && log[t][i].value >= 0)
    && (forall t, u, i :: t in log && u in log && t <= u && 0 <= i < 5 && log[t][i].Some? && log[u][i].Some? ==>
          log[t][i].value <= log[u][i].value)
  }

  // Any selection of a root session's lines, in any order, with its headers.
  predicate FragmentOf(line: Line, session: string, log: Log) {
    && (line.SessionMeta? && line.meta.Some? ==> line.meta.value.id == session && !line.meta.value.child)
    && (Timed(line) ==> line.at.value > 0)
    && (Timed(line) && line.usage.Some? ==> line.at.value in log && log[line.at.value] == line.usage.value)
  }

  function SumOf(calls: seq<Interval>, session: string, i: nat): int
    requires i < 5
  {
    if calls == [] then 0
    else
      var last := calls[|calls| - 1];
      SumOf(calls[..|calls| - 1], session, i) + if last.sample.session == session then OrZero(last.delta[i]) else 0
  }

  predicate NewestBy(calls: seq<Interval>, session: string, t: Instant) {
    forall k :: 0 <= k < |calls| && calls[k].sample.session == session ==> calls[k].sample.at <= t
  }

  // The recorded sum of each counter is at most any value of it from then on.
  ghost predicate Bounded(calls: seq<Interval>, session: string, log: Log) {
    forall t, i: nat :: t in log && i < 5 && log[t][i].Some? && NewestBy(calls, session, t) ==>
      SumOf(calls, session, i) <= log[t][i].value
  }

  ghost predicate Grounded(calls: seq<Interval>, session: string, log: Log) {
    && Apart(calls)
    && (forall k :: 0 <= k < |calls| && calls[k].sample.session == session ==>
          calls[k].sample.at in log && log[calls[k].sample.at] == calls[k].sample.usage)
    && Bounded(calls, session, log)
  }

  // The machine's baseline is nothing at all or a snapshot of the log.
  predicate BaselineOf(at: Instant, usage: Option<Counters>, log: Log) {
    match usage
    case None => at == 0
    case Some(u) => at in log && log[at] == u
  }

  predicate MachineOf(m: Machine, session: string, log: Log) {
    && (m.meta.Some? ==> m.meta.value.id == session && !m.meta.value.child)
    && BaselineOf(m.previousAt, m.previous, log)
  }

  lemma {:induction false} NoCallsNoSum(calls: seq<Interval>, session: string, i: nat)
    requires i < 5 && forall k :: 0 <= k < |calls| ==> calls[k].sample.session != session
    ensures SumOf(calls, session, i) == 0
  {
    if calls != [] {
      NoCallsNoSum(calls[..|calls| - 1], session, i);
    }
  }

  // What is planned for a root session: the growth since a baseline of the log.
  lemma PlanIsGrounded(e: Evidence, s: Sample, delta: Counters, base: Base, log: Log)
    requires Grounded(e.calls, s.session, log) && s.at > 0
    requires Difference(s.usage, base.usage) == Some(delta) && BaselineOf(base.at, base.usage, log)
    ensures var plan := PlanFor(e, s, delta, base);
            plan.Store? ==>
              && Difference(s.usage, plan.base.usage) == Some(plan.delta)
              && BaselineOf(plan.base.at, plan.base.usage, log)
              && (plan.base.usage.None? ==> forall k :: 0 <= k < |e.calls| ==> e.calls[k].sample.session != s.session)
  {
    hide Latest;
    hide Difference;
    hide Bounded;
    LatestIsNewest(e.calls, s.session);
  }

  lemma GrowthOf(current: Counters, previous: Option<Counters>, i: nat)
    requires i < 5 && Difference(current, previous).Some?
    ensures var d := Difference(current, previous).value;
            !Reset(current, previous, i) && d[i] == Growth(current, previous, i)
  {
    assert ResetFree(current, previous);
    assert i == 0 || i == 1 || i == 2 || i == 3 || i == 4;
  }

  // Recording one grounded interval keeps the sums within the log.
  lemma IntervalKeepsBound(calls: seq<Interval>, c: Interval, session: string, log: Log, t: Instant, i: nat)
    requires Grounded(calls, session, log) && MonotoneLog(log)
    requires c.sample.session == session && c.sample.at in log && log[c.sample.at] == c.sample.usage
    requires NewestBy(calls, session, c.base.at) && NewestBy(calls, session, c.sample.at)
    requires Difference(c.sample.usage, c.base.usage) == Some(c.delta) && BaselineOf(c.base.at, c.base.usage, log)
    requires c.base.usage.None? ==> forall k :: 0 <= k < |calls| ==> calls[k].sample.session != session
    requires t in log && i < 5 && log[t][i].Some? && c.sample.at <= t
    ensures SumOf(calls + [c], session, i) <= log[t][i].value
  {
    hide Difference;
    assert (calls + [c])[..|calls|] == calls;
    GrowthOf(c.sample.usage, c.base.usage, i);
    assert SumOf(calls + [c], session, i) == SumOf(calls, session, i) + OrZero(c.delta[i]);
    if c.delta[i].None? {
      assert NewestBy(calls, session, t);
    } else if c.base.usage.None? {
      NoCallsNoSum(calls, session, i);
    } else {
      assert SumOf(calls, session, i) <= log[c.base.at][i].value;
    }
  }

  lemma RecordingKeepsGrounded(calls: seq<Interval>, c: Interval, session: string, log: Log)
    requires Grounded(calls, session, log) && MonotoneLog(log)
    requires c.sample.session == session && c.sample.at in log && log[c.sample.at] == c.sample.usage && c.sample.at > 0
    requires forall k :: 0 <= k < |calls| && calls[k].sample.session == session ==>
               calls[k].sample.at <= c.base.at && calls[k].sample.at < c.sample.at
    requires Difference(c.sample.usage, c.base.usage) == Some(c.delta) && BaselineOf(c.base.at, c.base.usage, log)
    requires c.base.usage.None? ==> forall k :: 0 <= k < |calls| ==> calls[k].sample.session != session
    ensures Grounded(calls + [c], session, log)
  {
    hide Difference;
    hide SumOf;
    forall t, i: nat | t in log && i < 5 && log[t][i].Some? && NewestBy(calls + [c], session, t)
      ensures SumOf(calls + [c], session, i) <= log[t][i].value
    {
      assert (calls + [c])[|calls|] == c;
      IntervalKeepsBound(calls, c, session, log, t, i);
    }
    assert Apart(calls + [c]);
  }

  // What a root line offers: the growth since the machine's baseline.
  lemma RootActs(m: Machine, line: Line, answer: Answer, resolve: Resolver, session: string, log: Log)
    requires MachineOf(m, session, log) && FragmentOf(line, session, log)
    ensures var action := Act(m, line, answer, resolve);
            MachineOf(action.m, session, log) && GroundedOffer(action, session, log)
  {
    hide Difference;
  }

  lemma RecordPlanned(r: Run, action: Action, c: Interval, session: string, log: Log)
    requires MonotoneLog(log) && Grounded(r.e.calls, session, log) && action.Offer?
    requires && action.sample.session == session && action.sample.at > 0
             && action.sample.at in log && log[action.sample.at] == action.sample.usage
             && Difference(action.sample.usage, action.base.usage) == Some(action.delta)
             && BaselineOf(action.base.at, action.base.usage, log)
    requires var plan := PlanFor(r.e, action.sample, action.delta, action.base);
             plan.Store? && c.sample == action.sample && c.delta == plan.delta && c.base == plan.base
    ensures Grounded(r.e.calls + [c], session, log)
  {
    PlanIsGrounded(r.e, action.sample, action.delta, action.base, log);
    forall k | 0 <= k < |r.e.calls| && r.e.calls[k].sample.session == session
      ensures r.e.calls[k].sample.at <= c.base.at && r.e.calls[k].sample.at < c.sample.at
    {
      PlanStartsLater(r.e, action.sample, action.delta, action.base, k);
    }
    hide PlanFor;
    hide Difference;
    hide Grounded;
    RecordingKeepsGrounded(r.e.calls, c, session, log);
  }

  // An offer grounded in the log.
  ghost predicate GroundedOffer(action: Action, session: string, log: Log) {
    action.Offer? ==>
      && action.sample.session == session && action.sample.at > 0
      && action.sample.at in log && log[action.sample.at] == action.sample.usage
      && Difference(action.sample.usage, action.base.usage) == Some(action.delta)
      && BaselineOf(action.base.at, action.base.usage, log)
  }

  lemma PerformKeepsGrounded(r: Run, action: Action, session: string, log: Log)
    requires MonotoneLog(log) && Grounded(r.e.calls, session, log) && GroundedOffer(action, session, log)
    ensures Grounded(Perform(r, action).e.calls, session, log)
  {
    hide Perform;
    hide PlanFor;
    hide Difference;
    hide Grounded;
    hide MonotoneLog;
    PerformPlans(r, action);
    var after := Perform(r, action).e.calls;
    if after != r.e.calls {
      RecordPlanned(r, action, after[|r.e.calls|], session, log);
      assert after == r.e.calls + [after[|r.e.calls|]];
    }
  }

  lemma StepKeepsGrounded(r: Run, line: Line, resolve: Resolver, session: string, log: Log)
    requires MonotoneLog(log) && FragmentOf(line, session, log)
    requires MachineOf(r.m, session, log) && Grounded(r.e.calls, session, log)
    ensures var t := StepLine(r, line, resolve);
            MachineOf(t.m, session, log) && Grounded(t.e.calls, session, log)
  {
    if r.status == Going {
      var answer := Ask(r.e, SampleOf(r.m, line));
      var action := Act(r.m, line, answer, resolve);
      RootActs(r.m, line, answer, resolve, session, log);
      hide Act;
      hide Perform;
      hide Ask;
      hide SampleOf;
      hide Grounded;
      hide MonotoneLog;
      hide GroundedOffer;
      hide MachineOf;
      PerformKeepsGrounded(r, action, session, log);
      PerformMoves(r, action);
    }
  }

  lemma {:induction false} RunKeepsGrounded(r: Run, lines: seq<Line>, i: nat, resolve: Resolver, session: string,
      log: Log)
    requires i <= |lines| && MonotoneLog(log) && forall k :: 0 <= k < |lines| ==> FragmentOf(lines[k], session, log)
    requires MachineOf(r.m, session, log) && Grounded(r.e.calls, session, log)
    ensures var t := RunLines(r, lines[..i], resolve);
            MachineOf(t.m, session, log) && Grounded(t.e.calls, session, log)
  {
    hide StepLine;
    hide Grounded;
    hide MachineOf;
    hide FragmentOf;
    hide MonotoneLog;
    if i > 0 {
      RunKeepsGrounded(r, lines, i - 1, resolve, session, log);
      RunLinesNext(r, lines, i - 1, resolve);
      StepKeepsGrounded(RunLines(r, lines[..i - 1], resolve), lines[i - 1], resolve, session, log);
    } else {
      assert lines[..0] == [];
    }
  }

  lemma {:induction false} JobsKeepGrounded(e: Evidence, jobs: seq<Job>, session: string, log: Log)
    requires MonotoneLog(log) && Grounded(e.calls, session, log)
    requires forall j, k :: 0 <= j < |jobs| && 0 <= k < |jobs[j].lines| ==> FragmentOf(jobs[j].lines[k], session, log)
    ensures Grounded(After(e, jobs).calls, session, log)
  {
    hide Grounded;
    hide FragmentOf;
    hide MonotoneLog;
    hide RunLines;
    if jobs != [] {
      var init, last := jobs[..|jobs| - 1], jobs[|jobs| - 1];
      JobsKeepGrounded(e, init, session, log);
      RunKeepsGrounded(Start(After(e, init), last.budget), last.lines, |last.lines|, last.resolve, session, log);
      assert last.lines[..|last.lines|] == last.lines;
    }
  }

  // Main result: whatever fragments of a root session are imported, in whatever
  // order and however often cut short, what is recorded of each counter never
  // exceeds the counter of the newest recorded snapshot.
  lemma RecordedNeverExceedsCounters(jobs: seq<Job>, others: nat, session: string, log: Log, newest: int, i: nat)
    requires MonotoneLog(log) && i < 5
    requires forall j, k :: 0 <= j < |jobs| && 0 <= k < |jobs[j].lines| ==> FragmentOf(jobs[j].lines[k], session, log)
    requires var calls := After(Evidence({}, [], [], others), jobs).calls;
             && 0 <= newest < |calls| && calls[newest].sample.session == session
             && NewestBy(calls, session, calls[newest].sample.at)
             && calls[newest].sample.usage[i].Some?
    ensures var calls := After(Evidence({}, [], [], others), jobs).calls;
            SumOf(calls, session, i) <= calls[newest].sample.usage[i].value
  {
    JobsKeepGrounded(Evidence({}, [], [], others), jobs, session, log);
  }
}
