/** Codex logs of root sessions whose counters never go back: what an import, or a
    later import of the rest of such a log, records
    (internal/ingest/codexsession/import.go). */
module CodexClean {
  import opened Basics
  import opened Calls
  import opened CodexImport
  import opened CodexResume
  import opened CodexTotals

  // ---- the snapshots a root log delivers ------------------------------------------

  datatype Snapshot = Snapshot(at: Instant, usage: Counters)

  // The session of a log is that of its first header.
  function SessionOf(lines: seq<Line>): Option<string> {
    if lines == [] then None
    else
      var earlier, last := SessionOf(lines[..|lines| - 1]), lines[|lines| - 1];
      if earlier.Some? then earlier
      else if last.SessionMeta? && last.meta.Some? then Some(last.meta.value.id) else None
  }

  // A usage line with a total and a time.
  predicate Delivers(line: Line) {
    line.TokenCount? && line.usage.Some? && line.usage.value[CUMULATIVE].Some? && line.at.Some?
  }

  function SnapshotOf(line: Line): Snapshot
    requires Delivers(line)
  {
    Snapshot(line.at.value, line.usage.value)
  }

  // The snapshots that follow the header. Turns, blanks, other events, repeated
  // headers and usage lines without a total may stand anywhere among them.
  function SnapshotsOf(lines: seq<Line>): seq<Snapshot> {
    if lines == [] then []
    else
      var init, last := lines[..|lines| - 1], lines[|lines| - 1];
      SnapshotsOf(init) + if SessionOf(init).Some? && Delivers(last) then [SnapshotOf(last)] else []
  }

  // Only the last line of a log can be unfinished.
  predicate Ended(lines: seq<Line>) {
    forall k :: 0 <= k < |lines| - 1 ==> !lines[k].Partial?
  }

  function LastUsage(samples: seq<Snapshot>): Option<Counters> {
    if samples == [] then None else Some(samples[|samples| - 1].usage)
  }

  function LastTime(samples: seq<Snapshot>): Instant {
    if samples == [] then 0 else samples[|samples| - 1].at
  }

  predicate SameShape(a: Counters, b: Counters) {
    forall i :: 0 <= i < 5 ==> a[i].Some? == b[i].Some?
  }

  // A snapshot continues the one before it: a total is present, the same counters
  // are, none went back, and the interval's subsets fit.
  predicate Continues(now: Counters, before: Option<Counters>) {
    && now[CUMULATIVE].Some? && (before.Some? ==> SameShape(now, before.value))
    && ResetFree(now, before) && SubsetsFit(Delta(now, before))
  }

  predicate ContinuesAt(samples: seq<Snapshot>, k: nat)
    requires k < |samples|
  {
    Continues(samples[k].usage, LastUsage(samples[..k]))
  }

  // A reset-free log with a fixed set of counters and increasing times.
  predicate Clean(samples: seq<Snapshot>) {
    && (forall k :: 0 <= k < |samples| ==> samples[k].at > 0)
    && (forall j, k :: 0 <= j < k < |samples| ==> samples[j].at < samples[k].at)
    && (forall k: nat :: k < |samples| ==> ContinuesAt(samples, k))
  }

  lemma CleanNext(samples: seq<Snapshot>, s: Snapshot)
    requires Clean(samples + [s])
    ensures Clean(samples)
    ensures s.at > 0 && LastTime(samples) < s.at && Continues(s.usage, LastUsage(samples))
  {
    hide Continues;
    var all := samples + [s];
    assert ContinuesAt(all, |samples|) && all[..|samples|] == samples;
    forall k: nat | k < |samples| ensures ContinuesAt(samples, k) {
      assert ContinuesAt(all, k) && all[..k] == samples[..k] && all[k] == samples[k];
    }
    forall j, k | 0 <= j < k < |samples| ensures samples[j].at < samples[k].at {
      assert all[j].at < all[k].at;
    }
    forall k | 0 <= k < |samples| ensures samples[k].at > 0 {
      assert all[k].at > 0;
    }
    if samples != [] {
      assert all[|samples| - 1].at < all[|samples|].at;
    }
    assert all[|samples|].at > 0;
  }

  lemma {:induction false} CleanPrefix(samples: seq<Snapshot>, more: seq<Snapshot>)
    requires Clean(samples + more)
    ensures Clean(samples)
  {
    hide Clean;
    if more == [] {
      assert samples + more == samples;
    } else {
      var init := more[..|more| - 1];
      assert samples + more == (samples + init) + [more[|more| - 1]];
      CleanNext(samples + init, more[|more| - 1]);
      CleanPrefix(samples, init);
    }
  }

  // ---- what such a log is worth -----------------------------------------------------

  // An interval as it is recorded, whatever it is attributed to.
  datatype Entry = Entry(sample: Sample, delta: Counters)

  // What is recorded of a session.
  function Mine(calls: seq<Interval>, session: string): seq<Entry> {
    if calls == [] then []
    else
      var last := calls[|calls| - 1];
      Mine(calls[..|calls| - 1], session)
      + if last.sample.session == session then [Entry(last.sample, last.delta)] else []
  }

  // One interval for every snapshot that changed something: its growth.
  function Expected(session: string, samples: seq<Snapshot>): seq<Entry> {
    if samples == [] then []
    else
      var init, last := samples[..|samples| - 1], samples[|samples| - 1];
      var growth := Difference(last.usage, LastUsage(init));
      Expected(session, init) + if growth.Some? then [Entry(Sample(session, last.at, last.usage), growth.value)] else []
  }

  lemma ExpectedNext(session: string, samples: seq<Snapshot>, s: Snapshot)
    ensures var growth := Difference(s.usage, LastUsage(samples));
            Expected(session, samples + [s]) ==
            Expected(session, samples)
            + if growth.Some? then [Entry(Sample(session, s.at, s.usage), growth.value)] else []
  {
    hide Difference;
    assert (samples + [s])[..|samples|] == samples;
  }

  lemma {:induction false} ExpectedGrows(session: string, samples: seq<Snapshot>, more: seq<Snapshot>)
    ensures Expected(session, samples) <= Expected(session, samples + more)
  {
    hide Expected;
    if more == [] {
      assert samples + more == samples;
    } else {
      var init := more[..|more| - 1];
      assert samples + more == (samples + init) + [more[|more| - 1]];
      ExpectedNext(session, samples + init, more[|more| - 1]);
      ExpectedGrows(session, samples, init);
    }
  }

  lemma MineNext(calls: seq<Interval>, c: Interval, session: string)
    ensures Mine(calls + [c], session) ==
            Mine(calls, session) + if c.sample.session == session then [Entry(c.sample, c.delta)] else []
  {
    assert (calls + [c])[..|calls|] == calls;
  }

  predicate Untouched(e: Evidence, session: string) {
    forall k :: 0 <= k < |e.calls| ==> e.calls[k].sample.session != session
  }

  lemma {:induction false} UntouchedIsNone(calls: seq<Interval>, session: string)
    requires forall k :: 0 <= k < |calls| ==> calls[k].sample.session != session
    ensures Mine(calls, session) == []
  {
    if calls != [] {
      UntouchedIsNone(calls[..|calls| - 1], session);
    }
  }

  // The value a counter's growth is measured from.
  function From(before: Option<Counters>, i: nat): int
    requires i < 5
  {
    if before.None? then 0 else OrZero(before.value[i])
  }

  lemma GrowthLaw(now: Counters, before: Option<Counters>, i: nat)
    requires Continues(now, before) && i < 5
    ensures ResetFree(now, before)
    ensures Delta(now, before)[i].Some? == now[i].Some?
    ensures OrZero(Delta(now, before)[i]) == OrZero(now[i]) - From(before, i)
  {
    assert i == 0 || i == 1 || i == 2 || i == 3 || i == 4;
    assert !Reset(now, before, i);
  }

  // A continuing snapshot either grows some counter or repeats them all.
  lemma CleanDifference(now: Counters, before: Option<Counters>)
    requires Continues(now, before)
    ensures var d := Difference(now, before);
            && (d.None? <==> before == Some(now))
            && (d.Some? ==> forall i: nat :: i < 5 ==> OrZero(d.value[i]) == OrZero(now[i]) - From(before, i))
  {
    hide Delta;
    hide ResetFree;
    forall i: nat | i < 5
      ensures Delta(now, before)[i].Some? == now[i].Some?
      ensures OrZero(Delta(now, before)[i]) == OrZero(now[i]) - From(before, i)
    {
      GrowthLaw(now, before, i);
    }
    var d := Delta(now, before);
    assert d[CUMULATIVE].Some?;
    if before.Some? && !Changed(d) {
      forall i: nat | i < 5 ensures now[i] == before.value[i] {
        assert d[i].Some? ==> d[i].value == 0;
      }
      assert now == before.value;
    }
    if before == Some(now) {
      forall i | 0 <= i < 5 && d[i].Some? ensures d[i].value == 0 {
        assert OrZero(d[i]) == OrZero(now[i]) - From(before, i);
      }
    }
  }

  // What has been recorded of a session after some snapshots of its log: the
  // expected intervals, which add up to the counters of the last snapshot, and
  // that snapshot's counters are the store's checkpoint.
  ghost predicate CallsStand(calls: seq<Interval>, session: string, samples: seq<Snapshot>) {
    if samples == [] then forall k :: 0 <= k < |calls| ==> calls[k].sample.session != session
    else
      && NewestBy(calls, session, LastTime(samples))
      && Latest(calls, session).Some? && Latest(calls, session).value.at != 0
      && Some(Latest(calls, session).value.usage) == LastUsage(samples)
      && Mine(calls, session) == Expected(session, samples)
      && forall i: nat :: i < 5 ==> SumOf(calls, session, i) == From(LastUsage(samples), i)
  }

  lemma StandIsMine(calls: seq<Interval>, session: string, samples: seq<Snapshot>)
    requires CallsStand(calls, session, samples)
    ensures Mine(calls, session) == Expected(session, samples)
  {
    if samples == [] {
      UntouchedIsNone(calls, session);
    }
  }

  lemma LatestOfNewer(calls: seq<Interval>, c: Interval)
    requires NewestBy(calls, c.sample.session, c.sample.at)
    ensures Latest(calls + [c], c.sample.session) == Some(c.sample)
  {
    LatestIsNewest(calls, c.sample.session);
    assert (calls + [c])[..|calls|] == calls;
  }

  lemma CallsStandNext(calls: seq<Interval>, c: Interval, session: string, samples: seq<Snapshot>, s: Snapshot)
    requires Clean(samples + [s]) && CallsStand(calls, session, samples)
    requires Difference(s.usage, LastUsage(samples)) == Some(c.delta)
    requires c.sample == Sample(session, s.at, s.usage)
    ensures CallsStand(calls + [c], session, samples + [s])
  {
    hide Clean;
    hide Difference;
    hide Continues;
    hide Expected;
    hide Mine;
    hide Latest;
    CleanNext(samples, s);
    CleanDifference(s.usage, LastUsage(samples));
    StandIsMine(calls, session, samples);
    ExpectedNext(session, samples, s);
    MineNext(calls, c, session);
    assert NewestBy(calls, session, s.at);
    LatestOfNewer(calls, c);
    assert (calls + [c])[..|calls|] == calls;
    forall i: nat | i < 5 ensures SumOf(calls + [c], session, i) == From(Some(s.usage), i) {
      if samples == [] { NoCallsNoSum(calls, session, i); }
    }
  }

  // A repeated snapshot leaves everything where it was.
  lemma CallsStandStill(calls: seq<Interval>, session: string, samples: seq<Snapshot>, s: Snapshot)
    requires Clean(samples + [s]) && CallsStand(calls, session, samples)
    requires LastUsage(samples) == Some(s.usage)
    ensures CallsStand(calls, session, samples + [s])
    ensures Expected(session, samples + [s]) == Expected(session, samples)
  {
    hide Clean;
    hide Difference;
    hide Continues;
    hide Expected;
    hide Mine;
    hide Latest;
    hide SumOf;
    CleanNext(samples, s);
    CleanDifference(s.usage, LastUsage(samples));
    ExpectedNext(session, samples, s);
  }

  // ---- one line ---------------------------------------------------------------------------

  // A run over a clean root log, after the given snapshots of it.
  ghost predicate Standing(r: Run, session: string, samples: seq<Snapshot>) {
    && r.budget == None && Mine(r.e.calls, session) <= Expected(session, samples)
    && (r.status == Going ==>
          && !r.m.childStarted && r.m.previous == LastUsage(samples) && r.m.previousAt == LastTime(samples)
          && CallsStand(r.e.calls, session, samples))
  }

  // The machine knows the header of the session, if any.
  predicate HeadedBy(m: Machine, session: Option<string>) {
    && m.meta.Some? == session.Some?
    && (m.meta.Some? ==> m.meta.value.id == session.value && !m.meta.value.child)
  }

  function HeaderAfter(session: Option<string>, line: Line): Option<string> {
    if session.Some? then session
    else if line.SessionMeta? && line.meta.Some? then Some(line.meta.value.id) else None
  }

  // A line that delivers no snapshot moves at most the header.
  lemma QuietStep(r: Run, line: Line, resolve: Resolver, session: Option<string>)
    requires r.status == Going && HeadedBy(r.m, session) && RootLog([line]) && !(session.Some? && Delivers(line))
    ensures var t := StepLine(r, line, resolve);
            && t.e == r.e && t.budget == r.budget && t.status != Crashed
            && t.m.(meta := None) == r.m.(meta := None)
            && (t.status == Going ==> HeadedBy(t.m, HeaderAfter(session, line)))
            && (t.status == Finished ==> line.Partial?)
  {
    hide CountTokens;
    assert line == [line][0];
  }

  // Which header it moves to does not depend on the baseline.
  lemma QuietAlike(q: Run, r: Run, line: Line, resolve: Resolver, session: string)
    requires q.status == r.status == Going && q.m.meta == r.m.meta && HeadedBy(r.m, Some(session)) && !Delivers(line)
    ensures StepLine(q, line, resolve).m.meta == StepLine(r, line, resolve).m.meta
    ensures StepLine(q, line, resolve).status == StepLine(r, line, resolve).status
  {
    hide CountTokens;
  }

  // A snapshot of a root session is delivered, whatever else its line reports.
  lemma SnapshotActs(m: Machine, session: string, line: Line, answer: Answer, resolve: Resolver)
    requires HeadedBy(m, Some(session)) && Delivers(line)
    ensures Act(m, line, answer, resolve) == Deliver(m, m.meta.value, line.usage.value, line.at.value, resolve)
    ensures SampleOf(m, line) == Sample(session, line.at.value, line.usage.value)
  {
    hide Deliver;
  }

  lemma StoreShape(r: Run, s: Sample, delta: Counters, base: Base, a: Attribution)
    requires r.budget == None
    ensures var t := StoreInterval(r, s, delta, base, a);
            && t.m == r.m && t.budget == None
            && (t.status != Going ==> t.status == Failed && t.e.calls == r.e.calls)
            && (t.status == Going ==>
                  |t.e.calls| == |r.e.calls| + 1 && t.e.calls == r.e.calls + [t.e.calls[|r.e.calls|]]
                  && t.e.calls[|r.e.calls|].sample == s && t.e.calls[|r.e.calls|].delta == delta)
  {
    hide AcceptedTotal;
  }

  // Storing the growth of the next snapshot.
  lemma StoreStands(r: Run, session: string, samples: seq<Snapshot>, s: Snapshot, delta: Counters, base: Base,
      a: Attribution)
    requires Clean(samples + [s]) && CallsStand(r.e.calls, session, samples) && r.budget == None
    requires Difference(s.usage, LastUsage(samples)) == Some(delta) && !r.m.childStarted
    ensures Standing(StoreInterval(r.(m := Rebase(r.m, s.usage, s.at)), Sample(session, s.at, s.usage), delta, base, a),
                     session, samples + [s])
  {
    hide CallsStand;
    hide Clean;
    hide Mine;
    hide Expected;
    hide Difference;
    hide StoreInterval;
    var q := r.(m := Rebase(r.m, s.usage, s.at));
    var t := StoreInterval(q, Sample(session, s.at, s.usage), delta, base, a);
    StoreShape(q, Sample(session, s.at, s.usage), delta, base, a);
    StandIsMine(r.e.calls, session, samples);
    ExpectedGrows(session, samples, [s]);
    if t.status == Going {
      CallsStandNext(r.e.calls, t.e.calls[|r.e.calls|], session, samples, s);
      StandIsMine(t.e.calls, session, samples + [s]);
    }
  }

  // The plan for the next clean snapshot is its own growth.
  lemma CleanPlan(e: Evidence, session: string, samples: seq<Snapshot>, s: Snapshot, delta: Counters)
    requires Clean(samples + [s]) && CallsStand(e.calls, session, samples)
    ensures var base := Base(LastTime(samples), LastUsage(samples));
            PlanFor(e, Sample(session, s.at, s.usage), delta, base) == Store(delta, base)
  {
    hide Clean;
    hide Latest;
    hide SumOf;
    hide Mine;
    hide Expected;
    hide Continues;
    hide Difference;
    CleanNext(samples, s);
    LatestIsNewest(e.calls, session);
  }

  lemma CleanStep(r: Run, session: string, samples: seq<Snapshot>, line: Line, resolve: Resolver)
    requires Delivers(line) && Clean(samples + [SnapshotOf(line)])
    requires Standing(r, session, samples) && r.status == Going && HeadedBy(r.m, Some(session))
    ensures Standing(StepLine(r, line, resolve), session, samples + [SnapshotOf(line)])
    ensures StepLine(r, line, resolve).m.meta == r.m.meta
    ensures StepLine(r, line, resolve).status in {Going, Failed}
  {
    hide Act;
    hide SampleOf;
    hide Clean;
    hide Continues;
    hide Difference;
    hide CallsStand;
    hide Mine;
    hide Expected;
    hide PlanFor;
    hide StoreInterval;
    hide ProjectOf;
    hide OrUnavailable;
    var s := SnapshotOf(line);
    var sample := Sample(session, s.at, s.usage);
    SnapshotActs(r.m, session, line, Ask(r.e, sample), resolve);
    CleanNext(samples, s);
    CleanDifference(s.usage, LastUsage(samples));
    StandIsMine(r.e.calls, session, samples);
    ExpectedGrows(session, samples, [s]);
    var delta := Difference(s.usage, r.m.previous);
    if delta.None? {
      CallsStandStill(r.e.calls, session, samples, s);
    } else if ProjectOf(r.m.meta.value, resolve).Some? {
      var meta := r.m.meta.value;
      var a := Attribution(OrUnavailable(meta.provider), OrUnavailable(meta.model), ProjectOf(meta, resolve).value);
      var base := Base(LastTime(samples), LastUsage(samples));
      CleanPlan(r.e, session, samples, s, delta.value);
      StoreStands(r, session, samples, s, delta.value, base, a);
      StoreShape(r.(m := Rebase(r.m, s.usage, s.at)), sample, delta.value, base, a);
    }
  }

  // ---- a whole log ---------------------------------------------------------------------------

  lemma LinesNext(lines: seq<Line>, n: nat)
    requires n < |lines|
    ensures SessionOf(lines[..n + 1]) == HeaderAfter(SessionOf(lines[..n]), lines[n])
    ensures SnapshotsOf(lines[..n + 1]) ==
            SnapshotsOf(lines[..n])
            + if SessionOf(lines[..n]).Some? && Delivers(lines[n]) then [SnapshotOf(lines[n])] else []
    ensures RootLog(lines) ==> RootLog([lines[n]])
  {
    assert lines[..n + 1][..n] == lines[..n];
  }

  lemma {:induction false} CleanRun(e: Evidence, lines: seq<Line>, n: nat, resolve: Resolver, session: string)
    requires n <= |lines| && RootLog(lines) && Clean(SnapshotsOf(lines[..n])) && Untouched(e, session)
    requires SessionOf(lines[..n]).Some? ==> SessionOf(lines[..n]).value == session
    requires forall k :: 0 <= k < n ==> !lines[k].Partial?
    ensures var r := Cut(e, lines, n, None, resolve);
            && Standing(r, session, SnapshotsOf(lines[..n])) && r.status in {Going, Failed}
            && (r.status == Going ==> HeadedBy(r.m, SessionOf(lines[..n])))
  {
    hide Clean;
    hide StepLine;
    hide RootLog;
    hide Delivers;
    hide SnapshotsOf;
    hide SessionOf;
    hide RunLines;
    hide CallsStand;
    hide Mine;
    hide Expected;
    if n == 0 {
      NoLines(e, lines, resolve, session);
    } else {
      var before, line := SnapshotsOf(lines[..n - 1]), lines[n - 1];
      LinesNext(lines, n - 1);
      RunLinesNext(Start(e, None), lines, n - 1, resolve);
      if SnapshotsOf(lines[..n]) != before { CleanNext(before, SnapshotOf(line)); }
      hide Standing;
      CleanRun(e, lines, n - 1, resolve, session);
      CleanRunStep(Cut(e, lines, n - 1, None, resolve), line, resolve, session, SessionOf(lines[..n - 1]), before);
    }
  }

  lemma NoLines(e: Evidence, lines: seq<Line>, resolve: Resolver, session: string)
    requires Untouched(e, session)
    ensures lines[..0] == [] && SnapshotsOf(lines[..0]) == [] && SessionOf(lines[..0]) == None
    ensures Cut(e, lines, 0, None, resolve) == Start(e, None) && Standing(Start(e, None), session, [])
  {
    UntouchedIsNone(e.calls, session);
  }

  lemma CleanRunStep(r: Run, line: Line, resolve: Resolver, session: string, head: Option<string>,
      before: seq<Snapshot>)
    requires RootLog([line]) && !line.Partial? && Standing(r, session, before) && r.status in {Going, Failed}
    requires (r.status == Going ==> HeadedBy(r.m, head)) && (head.Some? ==> head.value == session)
    requires Clean(before + if head.Some? && Delivers(line) then [SnapshotOf(line)] else [])
    ensures var t := StepLine(r, line, resolve);
            && Standing(t, session, before + if head.Some? && Delivers(line) then [SnapshotOf(line)] else [])
            && t.status in {Going, Failed} && (t.status == Going ==> HeadedBy(t.m, HeaderAfter(head, line)))
  {
    hide Clean;
    hide CallsStand;
    hide Mine;
    hide Expected;
    if r.status != Going {
      ExpectedGrows(session, before, if head.Some? && Delivers(line) then [SnapshotOf(line)] else []);
    } else if head.Some? && Delivers(line) {
      CleanStep(r, session, before, line, resolve);
      hide StepLine;
    } else {
      QuietStep(r, line, resolve, head);
      assert before + [] == before;
      hide StepLine;
    }
  }

  // The lines of a log but for an unfinished last one, which changes nothing.
  function Whole(lines: seq<Line>): nat {
    if lines != [] && lines[|lines| - 1].Partial? then |lines| - 1 else |lines|
  }

  lemma WholeIsAll(e: Evidence, lines: seq<Line>, resolve: Resolver)
    requires Ended(lines)
    ensures Whole(lines) <= |lines| && forall k :: 0 <= k < Whole(lines) ==> !lines[k].Partial?
    ensures SnapshotsOf(lines[..Whole(lines)]) == SnapshotsOf(lines)
    ensures SessionOf(lines[..Whole(lines)]) == SessionOf(lines)
    ensures var r, q := Import(e, lines, None, resolve), Cut(e, lines, Whole(lines), None, resolve);
            && r.e == q.e && (r.status == Failed <==> q.status == Failed)
            && (r.status == Finished <==> q.status == Going || q.status == Finished)
  {
    hide StepLine;
    hide RunLines;
    hide SnapshotsOf;
    hide SessionOf;
    assert lines[..|lines|] == lines;
    if Whole(lines) < |lines| {
      LinesNext(lines, Whole(lines));
      RunLinesNext(Start(e, None), lines, Whole(lines), resolve);
      PartialKeeps(Cut(e, lines, Whole(lines), None, resolve), lines[Whole(lines)], resolve);
    }
  }

  // An import of a clean root log, finished or not.
  lemma CleanImport(e: Evidence, lines: seq<Line>, resolve: Resolver, session: string)
    requires RootLog(lines) && Ended(lines) && SessionOf(lines) == Some(session)
    requires Clean(SnapshotsOf(lines)) && Untouched(e, session)
    ensures var r := Import(e, lines, None, resolve);
            && Mine(r.e.calls, session) <= Expected(session, SnapshotsOf(lines))
            && (r.status == Finished ==> CallsStand(r.e.calls, session, SnapshotsOf(lines)))
  {
    hide Import;
    hide Cut;
    hide Clean;
    hide CallsStand;
    hide Mine;
    hide Expected;
    hide RootLog;
    hide SnapshotsOf;
    hide SessionOf;
    WholeIsAll(e, lines, resolve);
    CleanRun(e, lines, Whole(lines), resolve, session);
  }

  lemma PartialKeeps(r: Run, line: Line, resolve: Resolver)
    requires line.Partial?
    ensures StepLine(r, line, resolve).e == r.e
    ensures StepLine(r, line, resolve).status == if r.status == Going then Finished else r.status
  {
  }

  // Main result: a finished import of a clean root log, whatever else the log
  // holds, records one interval for every snapshot that changed something, and
  // the intervals telescope to the last counters.
  lemma CleanImportTelescopes(e: Evidence, lines: seq<Line>, resolve: Resolver, session: string, i: nat)
    requires RootLog(lines) && Ended(lines) && SessionOf(lines) == Some(session) && i < 5
    requires Clean(SnapshotsOf(lines)) && Untouched(e, session)
    requires Import(e, lines, None, resolve).status == Finished
    ensures var calls := Import(e, lines, None, resolve).e.calls;
            && Mine(calls, session) == Expected(session, SnapshotsOf(lines))
            && SumOf(calls, session, i) == From(LastUsage(SnapshotsOf(lines)), i)
  {
    hide Import;
    CleanImport(e, lines, resolve, session);
    var calls := Import(e, lines, None, resolve).e.calls;
    StandIsMine(calls, session, SnapshotsOf(lines));
    if SnapshotsOf(lines) == [] {
      NoCallsNoSum(calls, session, i);
    }
  }

  // ---- a later import of the rest of the log ----------------------------------------------

  // A log that holds a header and only what follows some point of another.
  function Rest(header: Meta, lines: seq<Line>, p: nat): seq<Line>
    requires p <= |lines|
  {
    [SessionMeta(Some(header))] + lines[p..]
  }

  lemma RestFirst(header: Meta, lines: seq<Line>, p: nat)
    requires p <= |lines|
    ensures SnapshotsOf(Rest(header, lines, p)[..1]) == [] && SessionOf(Rest(header, lines, p)[..1]) == Some(header.id)
  {
    var rest := Rest(header, lines, p);
    assert rest[..1] == [rest[0]] && [rest[0]][..0] == [];
  }

  // The rest delivers the snapshots the first part did not.
  lemma {:induction false} RestDelivers(header: Meta, lines: seq<Line>, p: nat, j: nat)
    requires p + j <= |lines| && SessionOf(lines[..p]).Some?
    ensures SessionOf(lines[..p + j]).Some? && SessionOf(Rest(header, lines, p)[..1 + j]) == Some(header.id)
    ensures SnapshotsOf(lines[..p + j]) == SnapshotsOf(lines[..p]) + SnapshotsOf(Rest(header, lines, p)[..1 + j])
    ensures SessionOf(lines[..p + j]) == SessionOf(lines[..p])
  {
    hide SnapshotsOf;
    hide SessionOf;
    var rest := Rest(header, lines, p);
    if j == 0 {
      RestFirst(header, lines, p);
    } else {
      RestDelivers(header, lines, p, j - 1);
      LinesNext(lines, p + j - 1);
      LinesNext(rest, j);
      assert rest[j] == lines[p + j - 1];
    }
  }

  // A later run that has not met a new snapshot yet: it has no baseline, and the
  // store still holds what the earlier import left.
  ghost predicate Resuming(q: Run, session: string, samples: seq<Snapshot>) {
    && samples != [] && q.budget == None && CallsStand(q.e.calls, session, samples) && q.status in {Going, Failed}
    && (q.status == Going ==>
          HeadedBy(q.m, Some(session)) && q.m.previous == None && q.m.previousAt == 0 && !q.m.childStarted)
  }

  // Cumulative counters that form an interval by themselves.
  predicate WholeFits(now: Counters) {
    now[CUMULATIVE].Some? && ResetFree(now, None) && SubsetsFit(now)
  }

  lemma WholeContinues(now: Counters, before: Option<Counters>)
    requires Continues(now, before) && (before.Some? ==> WholeFits(before.value))
    ensures WholeFits(now)
  {
    hide Delta;
    forall i: nat | i < 5 ensures !Reset(now, None, i) {
      assert !Reset(now, before, i);
    }
    GrowthLaw(now, before, INPUT);
    GrowthLaw(now, before, CACHED);
    GrowthLaw(now, before, OUTPUT);
    GrowthLaw(now, before, REASONING);
  }

  lemma {:induction false} CleanWholeFits(samples: seq<Snapshot>)
    requires Clean(samples) && samples != []
    ensures WholeFits(samples[|samples| - 1].usage)
  {
    hide Clean;
    hide Continues;
    hide WholeFits;
    var init, last := samples[..|samples| - 1], samples[|samples| - 1];
    assert samples == init + [last];
    CleanNext(init, last);
    if init != [] { CleanWholeFits(init); }
    WholeContinues(last.usage, LastUsage(init));
  }

  lemma WholeDifference(now: Counters)
    requires WholeFits(now)
    ensures Difference(now, None) == Some(now)
  {
    assert Delta(now, None) == now;
    assert Present(now);
  }

  // The store rebases the first new snapshot on its checkpoint.
  lemma ResumedPlan(e: Evidence, session: string, samples: seq<Snapshot>, s: Snapshot)
    requires samples != [] && Clean(samples + [s]) && CallsStand(e.calls, session, samples)
    ensures Latest(e.calls, session).Some?
    ensures var growth, base := Difference(s.usage, LastUsage(samples)),
            Base(Latest(e.calls, session).value.at, LastUsage(samples));
            PlanFor(e, Sample(session, s.at, s.usage), s.usage, Base(0, None)) ==
            if growth.None? then Refuse else Store(growth.value, base)
  {
    hide Clean;
    hide Latest;
    hide SumOf;
    hide Mine;
    hide Expected;
    hide Continues;
    hide Difference;
    CleanNext(samples, s);
    LatestIsNewest(e.calls, session);
  }

  // What a resumed run offers for its first new snapshot.
  lemma ResumedAct(q: Run, session: string, line: Line, resolve: Resolver)
    requires HeadedBy(q.m, Some(session)) && q.m.previous == None && q.m.previousAt == 0
    requires Delivers(line) && WholeFits(line.usage.value)
    ensures var s, meta := SnapshotOf(line), q.m.meta.value;
            && SampleOf(q.m, line) == Sample(session, s.at, s.usage)
            && Act(q.m, line, Ask(q.e, SampleOf(q.m, line)), resolve) ==
               if ProjectOf(meta, resolve).None? then Halt(Rebase(q.m, s.usage, s.at), Failed, 0)
               else Offer(Rebase(q.m, s.usage, s.at), Sample(session, s.at, s.usage), s.usage, Base(0, None),
                          Attribution(OrUnavailable(meta.provider), OrUnavailable(meta.model),
                              ProjectOf(meta, resolve).value))
  {
    hide Act;
    hide Difference;
    hide WholeFits;
    SnapshotActs(q.m, session, line, Ask(q.e, SampleOf(q.m, line)), resolve);
    WholeDifference(line.usage.value);
  }

  // It is refused when it repeats the last recorded one, and otherwise recorded
  // as its growth since then.
  lemma ResumeStep(q: Run, session: string, samples: seq<Snapshot>, line: Line, resolve: Resolver)
    requires Delivers(line) && Clean(samples + [SnapshotOf(line)]) && Resuming(q, session, samples) && q.status == Going
    ensures var t := StepLine(q, line, resolve);
            && t.status in {Going, Failed} && t.m.meta == q.m.meta
            && if Some(line.usage.value) == LastUsage(samples) then t.status == Failed && t.e == q.e
               else Standing(t, session, samples + [SnapshotOf(line)])
  {
    hide Act;
    hide SampleOf;
    hide Clean;
    hide Continues;
    hide Difference;
    hide CallsStand;
    hide Mine;
    hide Expected;
    hide PlanFor;
    hide StoreInterval;
    hide ProjectOf;
    hide OrUnavailable;
    hide WholeFits;
    var s := SnapshotOf(line);
    var sample := Sample(session, s.at, s.usage);
    assert (samples + [s])[|samples|] == s;
    CleanWholeFits(samples + [s]);
    ResumedAct(q, session, line, resolve);
    ResumedPlan(q.e, session, samples, s);
    CleanNext(samples, s);
    CleanDifference(s.usage, LastUsage(samples));
    StandIsMine(q.e.calls, session, samples);
    ExpectedGrows(session, samples, [s]);
    var growth := Difference(s.usage, LastUsage(samples));
    if ProjectOf(q.m.meta.value, resolve).Some? && growth.Some? {
      var meta := q.m.meta.value;
      var a := Attribution(OrUnavailable(meta.provider), OrUnavailable(meta.model), ProjectOf(meta, resolve).value);
      var base := Base(Latest(q.e.calls, session).value.at, LastUsage(samples));
      StoreStands(q, session, samples, s, growth.value, base, a);
      StoreShape(q.(m := Rebase(q.m, s.usage, s.at)), sample, growth.value, base, a);
    }
  }

  // A resumed run over the rest of a log, after its first lines: nothing new yet,
  // refused at the first new snapshot, or as if it had read the whole.
  ghost predicate Resumed(q: Run, f: Evidence, session: string, before: seq<Snapshot>, got: seq<Snapshot>) {
    && q.status in {Going, Failed}
    && (q.status == Going ==> HeadedBy(q.m, Some(session)))
    && if got == [] then Resuming(q, session, before) && q.e == f
       else if Some(got[0].usage) == LastUsage(before) then q.status == Failed && q.e == f
       else Standing(q, session, before + got)
  }

  lemma ResumedStep(q: Run, f: Evidence, session: string, before: seq<Snapshot>, got: seq<Snapshot>, line: Line,
      resolve: Resolver)
    requires RootLog([line]) && !line.Partial? && CallsStand(f.calls, session, before)
    requires Clean(before + (got + if Delivers(line) then [SnapshotOf(line)] else []))
    requires Resumed(q, f, session, before, got)
    ensures Resumed(StepLine(q, line, resolve), f, session, before,
                    got + if Delivers(line) then [SnapshotOf(line)] else [])
  {
    hide Clean;
    hide CallsStand;
    hide Mine;
    hide Expected;
    var more := if Delivers(line) then [SnapshotOf(line)] else [];
    assert before + (got + more) == (before + got) + more;
    if q.status != Going {
      ExpectedGrows(session, before, got + more);
      ExpectedGrows(session, before + got, more);
      StandIsMine(f.calls, session, before);
    } else if !Delivers(line) {
      assert got + [] == got;
      QuietStep(q, line, resolve, Some(session));
      hide StepLine;
    } else if got == [] {
      assert [] + more == more;
      ResumeStep(q, session, before, line, resolve);
      hide StepLine;
    } else {
      CleanStep(q, session, before + got, line, resolve);
      hide StepLine;
    }
  }

  lemma {:induction false} ResumeRun(f: Evidence, header: Meta, lines: seq<Line>, p: nat, j: nat, before: seq<Snapshot>,
      resolve: Resolver)
    requires p + j <= |lines| && RootLog(lines) && !header.child && before != []
             && CallsStand(f.calls, header.id, before)
    requires SessionOf(lines[..p]).Some? && Clean(before + SnapshotsOf(Rest(header, lines, p)[..1 + j]))
    requires forall k :: p <= k < p + j ==> !lines[k].Partial?
    ensures Resumed(Cut(f, Rest(header, lines, p), 1 + j, None, resolve), f, header.id, before,
                    SnapshotsOf(Rest(header, lines, p)[..1 + j]))
  {
    hide Clean;
    hide RunLines;
    hide SnapshotsOf;
    hide SessionOf;
    hide CallsStand;
    hide RootLog;
    hide Mine;
    hide Expected;
    var rest := Rest(header, lines, p);
    RunLinesNext(Start(f, None), rest, j, resolve);
    if j == 0 {
      RestFirst(header, lines, p);
      NoneRead(f, rest, resolve);
    } else {
      hide StepLine;
      hide Resumed;
      var got := SnapshotsOf(rest[..j]);
      RestDelivers(header, lines, p, j - 1);
      LinesNext(rest, j);
      LinesNext(lines, p + j - 1);
      assert rest[j] == lines[p + j - 1];
      var more := if Delivers(rest[j]) then [SnapshotOf(rest[j])] else [];
      assert before + (got + more) == (before + got) + more;
      CleanPrefix(before + got, more);
      ResumeRun(f, header, lines, p, j - 1, before, resolve);
      ResumedStep(Cut(f, rest, j, None, resolve), f, header.id, before, got, rest[j], resolve);
    }
  }

  lemma NoneRead(e: Evidence, lines: seq<Line>, resolve: Resolver)
    ensures Cut(e, lines, 0, None, resolve) == Start(e, None)
  {
    assert lines[..0] == [];
  }

  // A run that keeps going has not read an unfinished line.
  lemma GoingReadsOn(e: Evidence, lines: seq<Line>, p: nat, resolve: Resolver)
    requires p <= |lines| && Ended(lines) && Cut(e, lines, p, None, resolve).status == Going
    ensures forall k :: 0 <= k < p ==> !lines[k].Partial?
  {
    hide StepLine;
    hide RunLines;
    if p == |lines| && p > 0 && lines[p - 1].Partial? {
      RunLinesNext(Start(e, None), lines, p - 1, resolve);
      PartialKeeps(Cut(e, lines, p - 1, None, resolve), lines[p - 1], resolve);
    }
  }

  // The whole of the rest, and where the earlier import stood.
  lemma RestOf(e: Evidence, lines: seq<Line>, p: nat, header: Meta, resolve: Resolver)
    requires p <= |lines| && RootLog(lines) && Ended(lines) && SessionOf(lines[..p]) == Some(header.id)
    requires Clean(SnapshotsOf(lines)) && Untouched(e, header.id)
    requires Cut(e, lines, p, None, resolve).status == Going
    ensures var rest, r := Rest(header, lines, p), Cut(e, lines, p, None, resolve);
            && Ended(rest) && 1 <= Whole(rest) <= |rest|
            && SnapshotsOf(lines) == SnapshotsOf(lines[..p]) + SnapshotsOf(rest)
            && (forall k :: 0 <= k < p + Whole(rest) - 1 ==> !lines[k].Partial?)
            && Standing(r, header.id, SnapshotsOf(lines[..p])) && HeadedBy(r.m, Some(header.id))
  {
    hide Clean;
    hide RunLines;
    hide SnapshotsOf;
    hide SessionOf;
    hide RootLog;
    hide Standing;
    var rest := Rest(header, lines, p);
    assert lines[..|lines|] == lines && rest[..|rest|] == rest;
    RestDelivers(header, lines, p, |lines| - p);
    CleanPrefix(SnapshotsOf(lines[..p]), SnapshotsOf(rest));
    GoingReadsOn(e, lines, p, resolve);
    CleanRun(e, lines, p, resolve, header.id);
    forall k | p <= k < p + Whole(rest) - 1 ensures !lines[k].Partial? {
      assert rest[k - p + 1] == lines[k];
    }
  }

  // Main result: after an import of the first part of a clean root log, importing
  // only the rest, under any header of the session, records a prefix of what one
  // import of the whole is to record, and all of it if it finishes; it stops at
  // once, with nothing changed, when the rest begins by repeating the last snapshot.
  lemma SuffixFollowUp(e: Evidence, lines: seq<Line>, p: nat, header: Meta, resolve: Resolver, later: Resolver)
    requires p <= |lines| && RootLog(lines) && Ended(lines) && SessionOf(lines[..p]) == Some(header.id) && !header.child
    requires Clean(SnapshotsOf(lines)) && SnapshotsOf(lines[..p]) != [] && Untouched(e, header.id)
    requires Cut(e, lines, p, None, resolve).status == Going
    ensures var f, rest := Cut(e, lines, p, None, resolve).e, Rest(header, lines, p);
            var again, got := Import(f, rest, None, later), SnapshotsOf(rest);
            && Mine(again.e.calls, header.id) <= Expected(header.id, SnapshotsOf(lines))
            && (again.status == Finished ==> Mine(again.e.calls, header.id) == Expected(header.id, SnapshotsOf(lines)))
            && (got != [] && Some(got[0].usage) == LastUsage(SnapshotsOf(lines[..p])) ==>
                  again.status == Failed && again.e == f)
  {
    hide Clean;
    hide RunLines;
    hide Import;
    hide Cut;
    hide SnapshotsOf;
    hide SessionOf;
    hide RootLog;
    hide CallsStand;
    hide Mine;
    hide Expected;
    var before, rest := SnapshotsOf(lines[..p]), Rest(header, lines, p);
    var f := Cut(e, lines, p, None, resolve).e;
    RestOf(e, lines, p, header, resolve);
    WholeIsAll(f, rest, later);
    ResumeRun(f, header, lines, p, Whole(rest) - 1, before, later);
    var q := Cut(f, rest, Whole(rest), None, later);
    StandIsMine(f.calls, header.id, before);
    ExpectedGrows(header.id, before, SnapshotsOf(rest));
    if q.status == Going && SnapshotsOf(rest) != [] {
      StandIsMine(q.e.calls, header.id, before + SnapshotsOf(rest));
    }
    assert before + [] == before;
  }

  // ---- under the header that stood, it ends exactly as the whole import would ---------------

  // The first new snapshot gives both runs the same interval.
  lemma FirstAgree(q: Run, r: Run, session: string, samples: seq<Snapshot>, line: Line, resolve: Resolver)
    requires Delivers(line) && Clean(samples + [SnapshotOf(line)]) && samples != []
    requires Some(line.usage.value) != LastUsage(samples)
    requires Standing(r, session, samples) && r.status == Going && HeadedBy(r.m, Some(session))
    requires q.status == Going && q.budget == None && q.e == r.e && q.m == Machine(r.m.meta, None, 0, false)
    ensures Same(StepLine(q, line, resolve), StepLine(r, line, resolve))
    ensures StepLine(q, line, resolve).budget == StepLine(r, line, resolve).budget == None
  {
    hide Act;
    hide SampleOf;
    hide Clean;
    hide Continues;
    hide Difference;
    hide CallsStand;
    hide Mine;
    hide Expected;
    hide PlanFor;
    hide StoreInterval;
    hide ProjectOf;
    hide OrUnavailable;
    hide WholeFits;
    hide SameEvidence;
    var s := SnapshotOf(line);
    var sample := Sample(session, s.at, s.usage);
    assert (samples + [s])[|samples|] == s;
    CleanWholeFits(samples + [s]);
    ResumedAct(q, session, line, resolve);
    SnapshotActs(r.m, session, line, Ask(r.e, sample), resolve);
    ResumedPlan(q.e, session, samples, s);
    CleanNext(samples, s);
    CleanDifference(s.usage, LastUsage(samples));
    var growth := Difference(s.usage, LastUsage(samples));
    CleanPlan(r.e, session, samples, s, growth.value);
    SameEvidenceItself(Appended(r.e, sample));
    SameEvidenceItself(r.e);
    if ProjectOf(r.m.meta.value, resolve).Some? {
      var meta := r.m.meta.value;
      var a := Attribution(OrUnavailable(meta.provider), OrUnavailable(meta.model), ProjectOf(meta, resolve).value);
      var base1 := Base(Latest(q.e.calls, session).value.at, LastUsage(samples));
      var base2 := Base(LastTime(samples), LastUsage(samples));
      var m := Rebase(r.m, s.usage, s.at);
      StoresAgree(q.(m := m), r.(m := m), sample, growth.value, base1, base2, a);
      StoreShape(q.(m := m), sample, growth.value, base1, a);
      StoreShape(r.(m := m), sample, growth.value, base2, a);
    }
  }

  lemma SameEvidenceItself(e: Evidence)
    ensures SameEvidence(e, e)
  {
  }

  // The later run beside the earlier one gone on, after the same further lines.
  ghost predicate Beside(q: Run, r: Run, before: seq<Snapshot>, got: seq<Snapshot>) {
    && q.budget == r.budget == None
    && if got == [] then q.status == r.status && q.e == r.e
        && (r.status == Going ==> q.m == Machine(r.m.meta, None, 0, false))
       else Some(got[0].usage) == LastUsage(before)
            || (q.status == r.status && SameEvidence(q.e, r.e) && (r.status == Going ==> q.m == r.m))
  }

  lemma BesideStep(q: Run, r: Run, session: string, before: seq<Snapshot>, got: seq<Snapshot>, line: Line,
      resolve: Resolver)
    requires RootLog([line]) && !line.Partial? && before != [] && Beside(q, r, before, got)
    requires Standing(r, session, before + got) && (r.status == Going ==> HeadedBy(r.m, Some(session)))
    requires Clean(before + (got + if Delivers(line) then [SnapshotOf(line)] else []))
    requires StepLine(q, line, resolve).budget == None && StepLine(r, line, resolve).budget == None
    ensures Beside(StepLine(q, line, resolve), StepLine(r, line, resolve), before,
                   got + if Delivers(line) then [SnapshotOf(line)] else [])
  {
    hide Clean;
    hide CallsStand;
    hide Mine;
    hide Expected;
    hide SameEvidence;
    assert before + [] == before && got + [] == got;
    assert Delivers(line) ==> [] + [SnapshotOf(line)] == [SnapshotOf(line)];
    SameEvidenceItself(r.e);
    if got != [] && Some(got[0].usage) == LastUsage(before) {
      hide StepLine;
    } else if r.status != Going {
    } else if got != [] {
      StepsAgree(q, r, line, resolve);
      hide StepLine;
    } else if Delivers(line) {
      if Some(line.usage.value) != LastUsage(before) {
        FirstAgree(q, r, session, before, line, resolve);
      }
      hide StepLine;
    } else {
      QuietStep(q, line, resolve, Some(session));
      QuietStep(r, line, resolve, Some(session));
      QuietAlike(q, r, line, resolve, session);
      hide StepLine;
    }
  }

  lemma StepBudget(r: Run, line: Line, resolve: Resolver)
    requires r.budget == None
    ensures StepLine(r, line, resolve).budget == None
  {
    hide StepLine;
    StepsAgree(r, r, line, resolve);
  }

  lemma {:induction false} BesideRun(e: Evidence, lines: seq<Line>, p: nat, j: nat, resolve: Resolver, session: string)
    requires p + j <= |lines| && RootLog(lines) && SessionOf(lines[..p]) == Some(session) && Untouched(e, session)
    requires SnapshotsOf(lines[..p]) != [] && Clean(SnapshotsOf(lines[..p + j]))
    requires forall k :: 0 <= k < p + j ==> !lines[k].Partial?
    requires Cut(e, lines, p, None, resolve).status == Going && Cut(e, lines, p, None, resolve).m.meta.Some?
    ensures var r := Cut(e, lines, p, None, resolve);
            var rest := Rest(r.m.meta.value, lines, p);
            Beside(Cut(r.e, rest, 1 + j, None, resolve), Cut(e, lines, p + j, None, resolve),
                   SnapshotsOf(lines[..p]), SnapshotsOf(rest[..1 + j]))
  {
    hide Clean;
    hide StepLine;
    hide RunLines;
    hide SnapshotsOf;
    hide SessionOf;
    hide RootLog;
    hide Standing;
    var r := Cut(e, lines, p, None, resolve);
    var header := r.m.meta.value;
    var rest, before := Rest(header, lines, p), SnapshotsOf(lines[..p]);
    RunLinesNext(Start(r.e, None), rest, j, resolve);
    if j == 0 {
      RestFirst(header, lines, p);
      NoneRead(r.e, rest, resolve);
      CleanRun(e, lines, p, resolve, session);
      StandingBudget(r, session, before);
      HeaderStep(Start(r.e, None), header, resolve);
    } else {
      hide Beside;
      var n := p + j - 1;
      var got, more := SnapshotsOf(rest[..j]), if Delivers(rest[j]) then [SnapshotOf(rest[j])] else [];
      RunLinesNext(Start(e, None), lines, n, resolve);
      LinesNext(rest, j);
      LinesNext(lines, n);
      RestDelivers(header, lines, p, j - 1);
      assert rest[j] == lines[n] && before + (got + more) == (before + got) + more;
      CleanPrefix(before + got, more);
      BesideRun(e, lines, p, j - 1, resolve, session);
      CleanRun(e, lines, n, resolve, session);
      var q, s := Cut(r.e, rest, j, None, resolve), Cut(e, lines, n, None, resolve);
      BesideBudgets(q, s, before, got);
      StepBudget(q, rest[j], resolve);
      StepBudget(s, rest[j], resolve);
      BesideStep(q, s, session, before, got, rest[j], resolve);
    }
  }

  lemma StandingBudget(r: Run, session: string, samples: seq<Snapshot>)
    requires Standing(r, session, samples)
    ensures r.budget == None
  {
  }

  lemma BesideBudgets(q: Run, r: Run, before: seq<Snapshot>, got: seq<Snapshot>)
    requires Beside(q, r, before, got)
    ensures q.budget == r.budget == None
  {
  }

  lemma HeaderStep(r: Run, header: Meta, resolve: Resolver)
    requires r.status == Going && r.m.meta.None?
    ensures StepLine(r, SessionMeta(Some(header)), resolve) == r.(m := r.m.(meta := Some(header)))
  {
  }

  // Main result: under the header that stood when the earlier import stopped, the
  // rest of a clean log ends with the outcome and the evidence of one import of the
  // whole, unless it begins by repeating the last snapshot; then nothing changes.
  lemma SuffixCompletes(e: Evidence, lines: seq<Line>, p: nat, header: Meta, resolve: Resolver)
    requires p <= |lines| && RootLog(lines) && Ended(lines) && SessionOf(lines[..p]) == Some(header.id)
    requires Clean(SnapshotsOf(lines)) && SnapshotsOf(lines[..p]) != [] && Untouched(e, header.id)
    requires Cut(e, lines, p, None, resolve).status == Going && Cut(e, lines, p, None, resolve).m.meta == Some(header)
    ensures var f, rest := Cut(e, lines, p, None, resolve).e, Rest(header, lines, p);
            var again, whole, got := Import(f, rest, None, resolve), Import(e, lines, None, resolve), SnapshotsOf(rest);
            if got != [] && Some(got[0].usage) == LastUsage(SnapshotsOf(lines[..p]))
            then again.status == Failed && again.e == f
            else again.status == whole.status && SameEvidence(again.e, whole.e)
  {
    hide Clean;
    hide RunLines;
    hide Import;
    hide Cut;
    hide SnapshotsOf;
    hide SessionOf;
    hide RootLog;
    hide Standing;
    hide SameEvidence;
    hide Expected;
    hide Mine;
    hide Beside;
    hide Untouched;
    var rest, f := Rest(header, lines, p), Cut(e, lines, p, None, resolve).e;
    RestOf(e, lines, p, header, resolve);
    SuffixFollowUp(e, lines, p, header, resolve, resolve);
    SameLength(lines, p, header);
    WholeIsAll(e, lines, resolve);
    WholeIsAll(f, rest, resolve);
    assert Whole(lines) == p + (Whole(rest) - 1);
    BesideRun(e, lines, p, Whole(rest) - 1, resolve, header.id);
    var q, r := Cut(f, rest, Whole(rest), None, resolve), Cut(e, lines, Whole(lines), None, resolve);
    BesideEnds(q, r, SnapshotsOf(lines[..p]), SnapshotsOf(rest));
    NotCrashed(e, lines, Whole(lines), resolve);
    NotCrashed(f, rest, Whole(rest), resolve);
  }

  lemma SameLength(lines: seq<Line>, p: nat, header: Meta)
    requires p <= |lines| && forall k :: 0 <= k < p ==> !lines[k].Partial?
    ensures Whole(lines) == p + Whole(Rest(header, lines, p)) - 1
  {
    var rest := Rest(header, lines, p);
    if p < |lines| { assert rest[|rest| - 1] == lines[|lines| - 1]; }
  }

  lemma BesideEnds(q: Run, r: Run, before: seq<Snapshot>, got: seq<Snapshot>)
    requires Beside(q, r, before, got)
    ensures got == [] || Some(got[0].usage) != LastUsage(before) ==> q.status == r.status && SameEvidence(q.e, r.e)
  {
    SameEvidenceItself(r.e);
  }

  // Without a death ahead nothing crashes.
  lemma {:induction false} NotCrashed(e: Evidence, lines: seq<Line>, n: nat, resolve: Resolver)
    requires n <= |lines|
    ensures Cut(e, lines, n, None, resolve).budget == None && Cut(e, lines, n, None, resolve).status != Crashed
  {
    hide StepLine;
    if n == 0 {
      NoneRead(e, lines, resolve);
    } else {
      NotCrashed(e, lines, n - 1, resolve);
      RunLinesNext(Start(e, None), lines, n - 1, resolve);
      StepBudget(Cut(e, lines, n - 1, None, resolve), lines[n - 1], resolve);
      StepNotCrashed(Cut(e, lines, n - 1, None, resolve), lines[n - 1], resolve);
    }
  }

  lemma StepNotCrashed(r: Run, line: Line, resolve: Resolver)
    requires r.budget == None && r.status != Crashed
    ensures StepLine(r, line, resolve).status != Crashed
  {
    hide PlanFor;
    hide AcceptedTotal;
    hide Difference;
  }
}
