/** Re-importing a Codex log after a crash, a cancellation or a partial read:
    the stored evidence ends as if the import had never stopped. */
module CodexResume {
  import opened Basics
  import opened Calls
  import opened CodexImport

  // ---- runs that agree on everything stored ------------------------------------

  function Bare(c: Interval): Interval {
    c.(base := Base(0, None))
  }

  predicate SameCalls(a: seq<Interval>, b: seq<Interval>) {
    |a| == |b| && forall k :: 0 <= k < |a| ==> Bare(a[k]) == Bare(b[k])
  }

  // The same sessions, raw events and model-call deltas in the same order.
  predicate SameEvidence(e: Evidence, f: Evidence) {
    e.sessions == f.sessions && e.raws == f.raws && e.others == f.others && SameCalls(e.calls, f.calls)
  }

  predicate Same(x: Run, y: Run) {
    x.m == y.m && x.status == y.status && SameEvidence(x.e, y.e)
  }

  lemma {:induction false} SameCallsReadAlike(a: seq<Interval>, b: seq<Interval>, session: string)
    requires SameCalls(a, b)
    ensures Latest(a, session) == Latest(b, session)
    ensures RecordedTokens(a) == RecordedTokens(b)
  {
    if a != [] {
      SameCallsReadAlike(a[..|a| - 1], b[..|b| - 1], session);
      assert Bare(a[|a| - 1]) == Bare(b[|b| - 1]);
    }
  }

  lemma SameCallsLinkAlike(e: Evidence, f: Evidence, s: Sample)
    requires SameCalls(e.calls, f.calls)
    ensures Linked(e, s) <==> Linked(f, s)
  {
    if Linked(e, s) {
      var k :| 0 <= k < |e.calls| && e.calls[k].sample == s;
      assert Bare(e.calls[k]) == Bare(f.calls[k]);
    }
    if Linked(f, s) {
      var k :| 0 <= k < |f.calls| && f.calls[k].sample == s;
      assert Bare(e.calls[k]) == Bare(f.calls[k]);
    }
  }

  // Reads see only the linked calls, so runs that agree on them decide alike.
  lemma SameCallsDecideAlike(e: Evidence, f: Evidence)
    requires SameCalls(e.calls, f.calls)
    ensures forall s :: Ask(e, s) == Ask(f, s)
    ensures forall s, delta, base :: PlanFor(e, s, delta, base) == PlanFor(f, s, delta, base)
  {
    forall s ensures Ask(e, s) == Ask(f, s) {
      SameCallsReadAlike(e.calls, f.calls, s.session);
      SameCallsLinkAlike(e, f, s);
    }
    forall s, delta, base ensures PlanFor(e, s, delta, base) == PlanFor(f, s, delta, base) {
      assert Ask(e, s) == Ask(f, s);
    }
  }

  lemma TotalsAlike(e: Evidence, f: Evidence, delta: Counters)
    requires SameEvidence(e, f)
    ensures AcceptedTotal(e, delta) == AcceptedTotal(f, delta)
  {
    SameCallsReadAlike(e.calls, f.calls, "");
  }

  // What storing an interval leaves when nothing stops it depends only on the
  // evidence with the raw event in place: the first two writes are idempotent.
  lemma StoresAgree(r: Run, q: Run, s: Sample, delta: Counters, base1: Base, base2: Base, a: Attribution)
    requires r.m == q.m && r.budget == q.budget == None
    requires SameEvidence(Appended(r.e, s), Appended(q.e, s))
    ensures Same(StoreInterval(r, s, delta, base1, a), StoreInterval(q, s, delta, base2, a))
  {
    hide AcceptedTotal;
    var e, f := Appended(r.e, s), Appended(q.e, s);
    TotalsAlike(e, f, delta);
    if AcceptedTotal(e, delta).Some? {
      var call1 := IntervalOf(s, delta, base1, AcceptedTotal(e, delta).value, a);
      var call2 := IntervalOf(s, delta, base2, AcceptedTotal(e, delta).value, a);
      assert SameEvidence(LinkCall(e, call1), LinkCall(f, call2));
    }
  }

  lemma PerformancesAgree(r: Run, q: Run, action: Action)
    requires Same(r, q) && r.status == Going && r.budget == q.budget == None
    ensures Same(Perform(r, action), Perform(q, action))
  {
    SameCallsDecideAlike(r.e, q.e);
    if action.Offer? {
      var plan := PlanFor(r.e, action.sample, action.delta, action.base);
      if plan.Store? {
        StoresAgree(r.(m := action.m), q.(m := action.m), action.sample, plan.delta, plan.base, plan.base,
            action.attribution);
      }
    }
  }

  lemma StepsAgree(r: Run, q: Run, line: Line, resolve: Resolver)
    requires Same(r, q) && r.budget == q.budget == None
    ensures Same(StepLine(r, line, resolve), StepLine(q, line, resolve))
    ensures StepLine(r, line, resolve).budget == None
  {
    hide Act;
    if r.status == Going {
      SameCallsDecideAlike(r.e, q.e);
      PerformancesAgree(r, q, Act(r.m, line, Ask(r.e, SampleOf(r.m, line)), resolve));
    }
  }

  // ---- a step that stops half-way ---------------------------------------------------

  // The same working state over some evidence, with nothing stopping the process.
  function Revived(m: Machine, e: Evidence): Run {
    Run(m, e, None, Going, 0, 0, 0)
  }

  // A store that keeps going does what it would have done without a death ahead;
  // one that dies or is refused has at most put the session and raw event down.
  lemma StoreOutcome(r: Run, s: Sample, delta: Counters, base: Base, a: Attribution)
    requires r.status == Going
    ensures var cut := StoreInterval(r, s, delta, base, a);
            && cut.m == r.m
            && (cut.status == Going ==>
                  Same(cut, StoreInterval(Revived(r.m, r.e), s, delta, base, a)) && Linked(cut.e, s))
            && (cut.status != Going ==> cut.e.calls == r.e.calls && Appended(cut.e, s) == Appended(r.e, s))
  {
    hide AcceptedTotal;
    var cut := StoreInterval(r, s, delta, base, a);
    if cut.status == Going {
      assert cut.e.calls[|r.e.calls|].sample == s;
    }
  }

  // A step that keeps going does what it would have done without a death ahead.
  lemma PerformUndying(r: Run, action: Action)
    requires r.status == Going && Perform(r, action).status == Going
    ensures Same(Perform(r, action), Perform(Revived(r.m, r.e), action))
    ensures action.Offer? ==> Linked(Perform(r, action).e, action.sample)
  {
    if action.Offer? {
      var plan := PlanFor(r.e, action.sample, action.delta, action.base);
      if plan.Store? {
        StoreOutcome(r.(m := action.m), action.sample, plan.delta, plan.base, action.attribution);
      }
    }
  }

  lemma StepUndying(r: Run, line: Line, resolve: Resolver)
    requires r.status == Going && StepLine(r, line, resolve).status == Going
    ensures Same(StepLine(r, line, resolve), StepLine(Revived(r.m, r.e), line, resolve))
  {
    PerformUndying(r, Act(r.m, line, Ask(r.e, SampleOf(r.m, line)), resolve));
  }

  // A step that dies or fails can be taken again from the evidence it left.
  lemma PerformAgain(r: Run, action: Action)
    requires r.status == Going && Perform(r, action).status != Going
    ensures SameCalls(r.e.calls, Perform(r, action).e.calls)
    ensures Same(Perform(Revived(r.m, Perform(r, action).e), action), Perform(Revived(r.m, r.e), action))
  {
    var cut := Perform(r, action);
    if action.Offer? {
      SameCallsDecideAlike(r.e, r.e);
      var plan := PlanFor(r.e, action.sample, action.delta, action.base);
      if plan.Store? {
        StoreOutcome(r.(m := action.m), action.sample, plan.delta, plan.base, action.attribution);
        SameCallsDecideAlike(r.e, cut.e);
        StoresAgree(Revived(action.m, cut.e), Revived(action.m, r.e), action.sample, plan.delta, plan.base, plan.base,
            action.attribution);
      }
    }
  }

  lemma StepAgain(r: Run, line: Line, resolve: Resolver)
    requires r.status == Going && StepLine(r, line, resolve).status != Going
    ensures Same(StepLine(Revived(r.m, StepLine(r, line, resolve).e), line, resolve),
                 StepLine(Revived(r.m, r.e), line, resolve))
  {
    var cut := StepLine(r, line, resolve);
    var action := Act(r.m, line, Ask(r.e, SampleOf(r.m, line)), resolve);
    PerformAgain(r, action);
    SameCallsDecideAlike(r.e, cut.e);
  }

  // ---- replaying what is already recorded ---------------------------------------------

  // Everything linked stays linked.
  ghost predicate Keeps(e: Evidence, f: Evidence) {
    forall s :: Linked(e, s) ==> Linked(f, s)
  }

  // A baseline looked up while reading: the sample it is looked up for.
  predicate LooksUp(m: Machine, line: Line) {
    Counts(m, line) && line.at.Some? && Looks(m, m.meta.value, line.usage.value, line.last, line.at.value)
  }

  // Only a look-up listens to what the store answers.
  lemma ActsAlike(m: Machine, line: Line, x: Answer, y: Answer, resolve: Resolver)
    ensures LooksUp(m, line) || Act(m, line, x, resolve) == Act(m, line, y, resolve)
  {
  }

  // The sample of an offer is the line's own, and it ends the line with the
  // working state a recorded look-up moves to.
  lemma LinkedLookUpMoves(m: Machine, line: Line, x: Answer, y: Answer, resolve: Resolver)
    requires LooksUp(m, line) && y.linked
    ensures var again := Act(m, line, y, resolve);
            && again.Move?
            && (!Act(m, line, x, resolve).Halt? ==> again.m == Act(m, line, x, resolve).m)
  {
  }

  // A look-up replays harmlessly when its sample has been recorded since, or
  // when the store still offers the baseline it offered the first time.
  ghost predicate ReplaysLookUp(r: Run, line: Line, f: Evidence) {
    LooksUp(r.m, line) ==>
      var s := SampleOf(r.m, line);
      Linked(f, s) || Checkpoint(f, s.session) == Checkpoint(r.e, s.session)
  }

  // Reading a line again over evidence that already holds its outcome moves the
  // working state as before and writes nothing.
  lemma StepReplays(r: Run, line: Line, resolve: Resolver, f: Evidence)
    requires r.status == Going && StepLine(r, line, resolve).status == Going
    requires Keeps(r.e, f) && Keeps(StepLine(r, line, resolve).e, f)
    requires ReplaysLookUp(r, line, f)
    ensures Same(StepLine(Revived(r.m, f), line, resolve), Revived(StepLine(r, line, resolve).m, f))
  {
    hide Act;
    hide LooksUp;
    hide SampleOf;
    hide Perform;
    hide SameEvidence;
    hide Latest;
    var s := SampleOf(r.m, line);
    var action := Act(r.m, line, Ask(r.e, s), resolve);
    HaltsAreFinal(r.m, line, Ask(r.e, s), resolve);
    PerformMoves(r, action);
    PerformReplays(r, action, f);
    ActsAlike(r.m, line, Ask(r.e, s), Ask(f, s), resolve);
    if LooksUp(r.m, line) && Linked(f, s) {
      LinkedLookUpMoves(r.m, line, Ask(r.e, s), Ask(f, s), resolve);
      MoveOnlyMoves(Revived(r.m, f), Act(r.m, line, Ask(f, s), resolve));
    }
  }

  // Any step taken again over evidence that holds its outcome only moves.
  lemma PerformReplays(r: Run, action: Action, f: Evidence)
    requires r.status == Going && Perform(r, action).status == Going && !action.Halt?
    requires Keeps(Perform(r, action).e, f)
    ensures Same(Perform(Revived(r.m, f), action), Revived(Perform(r, action).m, f))
  {
    hide StoreInterval;
    hide Latest;
    PerformUndying(r, action);
    PerformMoves(r, action);
  }

  lemma MoveOnlyMoves(r: Run, action: Action)
    requires action.Move?
    ensures Same(Perform(r, action), r.(m := action.m))
  {
  }

  lemma PrefixKeeps(e: Evidence, f: Evidence)
    requires e.calls <= f.calls
    ensures Keeps(e, f)
  {
    forall s | Linked(e, s) ensures Linked(f, s) {
      var k :| 0 <= k < |e.calls| && e.calls[k].sample == s;
      assert f.calls[k].sample == s;
    }
  }

  lemma PerformGrows(r: Run, action: Action)
    ensures r.e.calls <= Perform(r, action).e.calls
  {
    hide PlanFor;
    hide AcceptedTotal;
    if action.Offer? {
      var plan := PlanFor(r.e, action.sample, action.delta, action.base);
      if plan.Store? {
        assert r.e.calls <= StoreInterval(r.(m := action.m), action.sample, plan.delta, plan.base,
            action.attribution).e.calls;
      }
    }
  }

  lemma StepGrows(r: Run, line: Line, resolve: Resolver)
    ensures r.e.calls <= StepLine(r, line, resolve).e.calls
    ensures r.status != Going ==> StepLine(r, line, resolve) == r
  {
    PerformGrows(r, Act(r.m, line, Ask(r.e, SampleOf(r.m, line)), resolve));
  }

  lemma RunLinesNext(r: Run, lines: seq<Line>, i: nat, resolve: Resolver)
    requires i < |lines|
    ensures RunLines(r, lines[..i + 1], resolve) == StepLine(RunLines(r, lines[..i], resolve), lines[i], resolve)
  {
    assert lines[..i + 1][..i] == lines[..i];
  }

  // Evidence only grows along a run, and a stopped run stays as it is.
  lemma {:induction false} RunGrows(r: Run, lines: seq<Line>, i: nat, p: nat, resolve: Resolver)
    requires i <= p <= |lines|
    ensures RunLines(r, lines[..i], resolve).e.calls <= RunLines(r, lines[..p], resolve).e.calls
    ensures RunLines(r, lines[..i], resolve).status != Going ==>
              RunLines(r, lines[..p], resolve) == RunLines(r, lines[..i], resolve)
  {
    hide StepLine;
    if i < p {
      RunGrows(r, lines, i, p - 1, resolve);
      RunLinesNext(r, lines, p - 1, resolve);
      StepGrows(RunLines(r, lines[..p - 1], resolve), lines[p - 1], resolve);
    }
  }

  // The evidence an import leaves when it reads only p lines, or dies on the way.
  function Cut(e: Evidence, lines: seq<Line>, p: nat, budget: Option<nat>, resolve: Resolver): Run
    requires p <= |lines|
  {
    RunLines(Start(e, budget), lines[..p], resolve)
  }

  // Every baseline look-up of the interrupted part replays harmlessly over the
  // evidence the interruption left.
  ghost predicate Harmless(e: Evidence, lines: seq<Line>, i: nat, p: nat, budget: Option<nat>, resolve: Resolver)
    requires i <= p <= |lines|
  {
    forall j :: 0 <= j < i && Cut(e, lines, j, budget, resolve).status == Going ==>
      ReplaysLookUp(Cut(e, lines, j, budget, resolve), lines[j], Cut(e, lines, p, budget, resolve).e)
  }

  // An interrupted reading `was`, an uninterrupted one and the repeat over the
  // evidence f that the interruption left, all after the same lines: while the
  // interrupted one keeps going the repeat only moves, afterwards it does what
  // the uninterrupted one does.
  predicate InStep(was: Run, whole: Run, again: Run, f: Evidence) {
    && whole.budget == again.budget == None
    && if was.status == Going then Same(whole, was) && Same(again, Revived(was.m, f))
       else Same(whole, again)
  }

  lemma ReplayOne(was: Run, whole: Run, again: Run, line: Line, resolve: Resolver, f: Evidence)
    requires InStep(was, whole, again, f) && was.status == Going
    requires ReplaysLookUp(was, line, f)
    requires was.e.calls <= StepLine(was, line, resolve).e.calls <= f.calls
    requires StepLine(was, line, resolve).status != Going ==> f == StepLine(was, line, resolve).e
    ensures InStep(StepLine(was, line, resolve), StepLine(whole, line, resolve), StepLine(again, line, resolve), f)
  {
    hide StepLine;
    StepsAgree(whole, Revived(was.m, was.e), line, resolve);
    StepsAgree(again, Revived(was.m, f), line, resolve);
    if StepLine(was, line, resolve).status == Going {
      StepUndying(was, line, resolve);
      PrefixKeeps(was.e, f);
      PrefixKeeps(StepLine(was, line, resolve).e, f);
      StepReplays(was, line, resolve, f);
    } else {
      StepAgain(was, line, resolve);
    }
  }

  // Up to the interruption.
  lemma {:induction false} ReplayToCut(e: Evidence, lines: seq<Line>, i: nat, p: nat, budget: Option<nat>,
      resolve: Resolver)
    requires i <= p <= |lines| && Harmless(e, lines, i, p, budget, resolve)
    ensures var f := Cut(e, lines, p, budget, resolve).e;
            InStep(Cut(e, lines, i, budget, resolve), Cut(e, lines, i, None, resolve), Cut(f, lines, i, None, resolve),
                f)
  {
    hide StepLine;
    if i > 0 {
      var f := Cut(e, lines, p, budget, resolve).e;
      ReplayToCut(e, lines, i - 1, p, budget, resolve);
      var was, whole, again := Cut(e, lines, i - 1, budget, resolve), Cut(e, lines, i - 1, None, resolve),
          Cut(f, lines, i - 1, None, resolve);
      RunLinesNext(Start(e, budget), lines, i - 1, resolve);
      RunLinesNext(Start(e, None), lines, i - 1, resolve);
      RunLinesNext(Start(f, None), lines, i - 1, resolve);
      StepGrows(was, lines[i - 1], resolve);
      if was.status == Going {
        RunGrows(Start(e, budget), lines, i, p, resolve);
        ReplayOne(was, whole, again, lines[i - 1], resolve, f);
      } else {
        StepsAgree(whole, again, lines[i - 1], resolve);
        StepsAgree(again, whole, lines[i - 1], resolve);
      }
    }
  }

  // And from there on.
  lemma {:induction false} FollowOn(e: Evidence, f: Evidence, lines: seq<Line>, i: nat, p: nat, resolve: Resolver)
    requires p <= i <= |lines|
    requires Cut(e, lines, p, None, resolve).budget == Cut(f, lines, p, None, resolve).budget == None
    requires Same(Cut(e, lines, p, None, resolve), Cut(f, lines, p, None, resolve))
    ensures Same(Cut(e, lines, i, None, resolve), Cut(f, lines, i, None, resolve))
    ensures Cut(e, lines, i, None, resolve).budget == Cut(f, lines, i, None, resolve).budget == None
  {
    hide StepLine;
    if i > p {
      FollowOn(e, f, lines, i - 1, p, resolve);
      RunLinesNext(Start(e, None), lines, i - 1, resolve);
      RunLinesNext(Start(f, None), lines, i - 1, resolve);
      StepsAgree(Cut(e, lines, i - 1, None, resolve), Cut(f, lines, i - 1, None, resolve), lines[i - 1], resolve);
      StepsAgree(Cut(f, lines, i - 1, None, resolve), Cut(e, lines, i - 1, None, resolve), lines[i - 1], resolve);
    }
  }

  // Main result: an import that read only part of the log, or died between any
  // two store writes, is completed by importing the same log again: the sessions,
  // raw events and model-call deltas are those of one uninterrupted import.
  lemma ImportingAgainCompletes(e: Evidence, lines: seq<Line>, p: nat, budget: Option<nat>, resolve: Resolver)
    requires p <= |lines| && Harmless(e, lines, p, p, budget, resolve)
    ensures Same(Import(Cut(e, lines, p, budget, resolve).e, lines, None, resolve), Import(e, lines, None, resolve))
  {
    ReplayToCut(e, lines, p, p, budget, resolve);
    FollowOn(e, Cut(e, lines, p, budget, resolve).e, lines, |lines|, p, resolve);
    assert lines[..|lines|] == lines;
  }

  // ---- root sessions never look a baseline up -----------------------------------------

  predicate RootLog(lines: seq<Line>) {
    forall i :: 0 <= i < |lines| && lines[i].SessionMeta? && lines[i].meta.Some? ==> !lines[i].meta.value.child
  }

  predicate RootMachine(m: Machine) {
    m.meta.Some? ==> !m.meta.value.child
  }

  lemma PerformMoves(r: Run, action: Action)
    ensures Perform(r, action).m == action.m
    ensures action.Halt? ==> Perform(r, action).status == action.status
  {
    hide PlanFor;
    hide AcceptedTotal;
    if action.Offer? {
      var plan := PlanFor(r.e, action.sample, action.delta, action.base);
      if plan.Store? {
        assert StoreInterval(r.(m := action.m), action.sample, plan.delta, plan.base, action.attribution).m == action.m;
      }
    }
  }

  lemma RootStep(r: Run, line: Line, resolve: Resolver)
    requires RootMachine(r.m) && RootLog([line])
    ensures RootMachine(StepLine(r, line, resolve).m)
  {
    hide Perform;
    assert line == [line][0];
    PerformMoves(r, Act(r.m, line, Ask(r.e, SampleOf(r.m, line)), resolve));
  }

  lemma {:induction false} RootRun(r: Run, lines: seq<Line>, i: nat, resolve: Resolver)
    requires i <= |lines| && RootLog(lines) && RootMachine(r.m)
    ensures RootMachine(RunLines(r, lines[..i], resolve).m)
  {
    hide StepLine;
    if i > 0 {
      RootRun(r, lines, i - 1, resolve);
      RunLinesNext(r, lines, i - 1, resolve);
      RootStep(RunLines(r, lines[..i - 1], resolve), lines[i - 1], resolve);
    } else {
      assert lines[..0] == [];
    }
  }

  // So for a root session no condition is needed.
  lemma RootImportingAgainCompletes(e: Evidence, lines: seq<Line>, p: nat, budget: Option<nat>, resolve: Resolver)
    requires p <= |lines| && RootLog(lines)
    ensures Same(Import(Cut(e, lines, p, budget, resolve).e, lines, None, resolve), Import(e, lines, None, resolve))
  {
    forall j | 0 <= j < p ensures ReplaysLookUp(Cut(e, lines, j, budget, resolve), lines[j],
        Cut(e, lines, p, budget, resolve).e) {
      RootRun(Start(e, budget), lines, j, resolve);
    }
    ImportingAgainCompletes(e, lines, p, budget, resolve);
  }

  // ---- child sessions: exactly when the repeat completes --------------------------------

  predicate Timed(line: Line) {
    line.TokenCount? && line.at.Some?
  }

  // Usage lines in the order of their (positive) times, as a log is written.
  predicate InOrder(lines: seq<Line>) {
    && (forall i :: 0 <= i < |lines| && Timed(lines[i]) ==> lines[i].at.value > 0)
    && (forall i, j :: 0 <= i < j < |lines| && Timed(lines[i]) && Timed(lines[j]) ==>
          lines[i].at.value <= lines[j].at.value)
  }

  // A step records at most one interval, of the line's own sample.
  lemma PerformRecords(r: Run, action: Action)
    ensures var before, after := r.e.calls, Perform(r, action).e.calls;
            after == before
            || (|after| == |before| + 1 && before == after[..|before|] && action.Offer?
                && after[|before|].sample == action.sample)
  {
    hide PlanFor;
    hide AcceptedTotal;
    if action.Offer? {
      var plan := PlanFor(r.e, action.sample, action.delta, action.base);
    }
  }

  lemma OfferIsOfLine(m: Machine, line: Line, answer: Answer, resolve: Resolver)
    ensures var action := Act(m, line, answer, resolve);
            action.Offer? ==> Timed(line) && action.sample == SampleOf(m, line) && action.sample.at == line.at.value
  {
  }

  lemma {:induction false} LaterCallsAreLate(r: Run, lines: seq<Line>, j: nat, i: nat, t: nat, resolve: Resolver)
    requires j <= i <= |lines|
    requires forall k :: j <= k < i && Timed(lines[k]) ==> t <= lines[k].at.value
    ensures var was, now := RunLines(r, lines[..j], resolve).e.calls, RunLines(r, lines[..i], resolve).e.calls;
            was <= now && forall k :: |was| <= k < |now| ==> t <= now[k].sample.at
  {
    hide Perform;
    hide Act;
    hide Ask;
    hide SampleOf;
    if i > j {
      LaterCallsAreLate(r, lines, j, i - 1, t, resolve);
      RunLinesNext(r, lines, i - 1, resolve);
      var before := RunLines(r, lines[..i - 1], resolve);
      if before.status == Going {
        var answer := Ask(before.e, SampleOf(before.m, lines[i - 1]));
        OfferIsOfLine(before.m, lines[i - 1], answer, resolve);
        PerformRecords(before, Act(before.m, lines[i - 1], answer, resolve));
      }
    }
  }

  lemma {:induction false} LatestAfterLateCalls(was: seq<Interval>, now: seq<Interval>, session: string, t: nat)
    requires was <= now && forall k :: |was| <= k < |now| ==> t <= now[k].sample.at
    ensures Latest(now, session) == Latest(was, session)
            || (Latest(now, session).Some? && Latest(now, session).value.at >= t)
  {
    if |was| < |now| {
      var init := now[..|now| - 1];
      assert was <= init;
      LatestAfterLateCalls(was, init, session, t);
    } else {
      assert was == now;
    }
  }

  // Once a baseline has been looked up the child has started for good.
  lemma ActStarts(m: Machine, line: Line, answer: Answer, resolve: Resolver)
    ensures m.childStarted ==> Act(m, line, answer, resolve).m.childStarted
    ensures LooksUp(m, line) ==> Act(m, line, answer, resolve).m.childStarted
  {
  }

  lemma StartedStays(r: Run, line: Line, resolve: Resolver)
    ensures r.m.childStarted ==> StepLine(r, line, resolve).m.childStarted
    ensures LooksUp(r.m, line) && StepLine(r, line, resolve).status == Going && r.status == Going
            ==> StepLine(r, line, resolve).m.childStarted
  {
    hide Perform;
    hide Act;
    var answer := Ask(r.e, SampleOf(r.m, line));
    ActStarts(r.m, line, answer, resolve);
    PerformMoves(r, Act(r.m, line, answer, resolve));
  }

  lemma {:induction false} StartedStaysAlong(r: Run, lines: seq<Line>, i: nat, j: nat, resolve: Resolver)
    requires i <= j <= |lines| && RunLines(r, lines[..i], resolve).m.childStarted
    ensures RunLines(r, lines[..j], resolve).m.childStarted
  {
    hide StepLine;
    if i < j {
      StartedStaysAlong(r, lines, i, j - 1, resolve);
      RunLinesNext(r, lines, j - 1, resolve);
      StartedStays(RunLines(r, lines[..j - 1], resolve), lines[j - 1], resolve);
    }
  }

  // A look-up that would be answered differently stops the repeat.
  lemma BlockedLookUp(was: Run, again: Run, line: Line, resolve: Resolver, f: Evidence)
    requires was.status == Going && LooksUp(was.m, line) && Same(again, Revived(was.m, f))
    requires var s := SampleOf(was.m, line);
             !Linked(f, s) && Checkpoint(f, s.session).Some? && Checkpoint(f, s.session).value.at >= s.at
    ensures var t := StepLine(again, line, resolve);
            t.status == Failed && SameEvidence(t.e, f) && t.m.previous == None
  {
    SameCallsDecideAlike(again.e, f);
    assert Ask(again.e, SampleOf(was.m, line)) == Ask(f, SampleOf(was.m, line));
  }

  // Once there is a baseline there always is one, and a look-up that does not stop
  // the run leaves one.
  lemma ActKeepsBaseline(m: Machine, line: Line, answer: Answer, resolve: Resolver)
    ensures var action := Act(m, line, answer, resolve);
            && (m.previous.Some? ==> action.m.previous.Some?)
            && (LooksUp(m, line) && !action.Halt? ==> action.m.previous.Some?)
  {
    hide Difference;
    hide SameCounters;
  }

  lemma StepKeepsBaseline(r: Run, line: Line, resolve: Resolver)
    ensures r.m.previous.Some? ==> StepLine(r, line, resolve).m.previous.Some?
    ensures r.status == Going && LooksUp(r.m, line) && StepLine(r, line, resolve).status == Going ==>
              StepLine(r, line, resolve).m.previous.Some?
  {
    hide Perform;
    hide Act;
    hide LooksUp;
    var answer := Ask(r.e, SampleOf(r.m, line));
    ActKeepsBaseline(r.m, line, answer, resolve);
    HaltsAreFinal(r.m, line, answer, resolve);
    PerformMoves(r, Act(r.m, line, answer, resolve));
  }

  lemma HaltsAreFinal(m: Machine, line: Line, answer: Answer, resolve: Resolver)
    ensures var action := Act(m, line, answer, resolve); action.Halt? ==> action.status != Going
  {
    hide Difference;
    hide SameCounters;
  }

  lemma {:induction false} BaselineStays(r: Run, lines: seq<Line>, i: nat, j: nat, resolve: Resolver)
    requires i <= j <= |lines| && RunLines(r, lines[..i], resolve).m.previous.Some?
    ensures RunLines(r, lines[..j], resolve).m.previous.Some?
  {
    hide StepLine;
    if i < j {
      BaselineStays(r, lines, i, j - 1, resolve);
      RunLinesNext(r, lines, j - 1, resolve);
      StepKeepsBaseline(RunLines(r, lines[..j - 1], resolve), lines[j - 1], resolve);
    }
  }

  // A step that stops records nothing, so the look-up it began with replays.
  lemma StoppedLookUpReplays(r: Run, line: Line, resolve: Resolver)
    requires r.status == Going && StepLine(r, line, resolve).status != Going
    ensures ReplaysLookUp(r, line, StepLine(r, line, resolve).e)
  {
    hide Act;
    hide Perform;
    hide LooksUp;
    hide SampleOf;
    hide Latest;
    var s := SampleOf(r.m, line);
    PerformAgain(r, Act(r.m, line, Ask(r.e, s), resolve));
    SameCallsReadAlike(r.e.calls, StepLine(r, line, resolve).e.calls, s.session);
  }

  // Before a harmful look-up there was none, so the repeat reaches it.
  lemma RepeatReachesLookUp(e: Evidence, lines: seq<Line>, j: nat, p: nat, budget: Option<nat>, resolve: Resolver)
    requires j < p <= |lines| && Cut(e, lines, j, budget, resolve).status == Going
    requires LooksUp(Cut(e, lines, j, budget, resolve).m, lines[j])
    ensures Harmless(e, lines, j, p, budget, resolve)
  {
    hide RunLines;
    hide StepLine;
    var f := Cut(e, lines, p, budget, resolve).e;
    forall i | 0 <= i < j && Cut(e, lines, i, budget, resolve).status == Going
      ensures !LooksUp(Cut(e, lines, i, budget, resolve).m, lines[i])
    {
      if LooksUp(Cut(e, lines, i, budget, resolve).m, lines[i]) {
        RunGrows(Start(e, budget), lines, i + 1, j, resolve);
        RunLinesNext(Start(e, budget), lines, i, resolve);
        StartedStays(Cut(e, lines, i, budget, resolve), lines[i], resolve);
        StartedStaysAlong(Start(e, budget), lines, i + 1, j, resolve);
        assert false;
      }
    }
  }

  // The interruption recorded something later, so the look-up is now answered with
  // a sample at or after its own.
  lemma HarmfulAnswer(e: Evidence, lines: seq<Line>, j: nat, p: nat, budget: Option<nat>, resolve: Resolver)
    requires j < p <= |lines| && InOrder(lines) && Cut(e, lines, j, budget, resolve).status == Going
    requires !ReplaysLookUp(Cut(e, lines, j, budget, resolve), lines[j], Cut(e, lines, p, budget, resolve).e)
    ensures var f, s := Cut(e, lines, p, budget, resolve).e, SampleOf(Cut(e, lines, j, budget, resolve).m, lines[j]);
            !Linked(f, s) && Checkpoint(f, s.session).Some? && Checkpoint(f, s.session).value.at >= s.at
    ensures Cut(e, lines, j + 1, budget, resolve).status == Going
  {
    hide RunLines;
    hide StepLine;
    hide Latest;
    var was, f := Cut(e, lines, j, budget, resolve), Cut(e, lines, p, budget, resolve).e;
    var s := SampleOf(was.m, lines[j]);
    RunLinesNext(Start(e, budget), lines, j, resolve);
    RunGrows(Start(e, budget), lines, j + 1, p, resolve);
    if Cut(e, lines, j + 1, budget, resolve).status != Going { StoppedLookUpReplays(was, lines[j], resolve); }
    LaterCallsAreLate(Start(e, budget), lines, j, p, s.at, resolve);
    LatestAfterLateCalls(was.e.calls, f.calls, s.session, s.at);
  }

  // A look-up answered differently stops the repeat without a baseline and with
  // nothing recorded, where the uninterrupted import went on from one.
  lemma HarmfulRepeatStops(e: Evidence, lines: seq<Line>, j: nat, p: nat, budget: Option<nat>, resolve: Resolver)
    requires j < p <= |lines| && InOrder(lines)
    requires var was := Cut(e, lines, j, budget, resolve);
             was.status == Going && !ReplaysLookUp(was, lines[j], Cut(e, lines, p, budget, resolve).e)
    ensures var f := Cut(e, lines, p, budget, resolve).e;
            var again := Import(f, lines, None, resolve);
            again.status == Failed && SameEvidence(again.e, f) && again.m.previous == None
    ensures Import(e, lines, None, resolve).m.previous.Some?
  {
    hide RunLines;
    hide StepLine;
    hide LooksUp;
    hide SampleOf;
    hide Checkpoint;
    hide SameEvidence;
    hide InOrder;
    hide Harmless;
    var f := Cut(e, lines, p, budget, resolve).e;
    var was := Cut(e, lines, j, budget, resolve);
    RepeatReachesLookUp(e, lines, j, p, budget, resolve);
    ReplayToCut(e, lines, j, p, budget, resolve);
    HarmfulAnswer(e, lines, j, p, budget, resolve);
    var again, whole := Cut(f, lines, j, None, resolve), Cut(e, lines, j, None, resolve);
    BlockedLookUp(was, again, lines[j], resolve, f);
    RunLinesNext(Start(f, None), lines, j, resolve);
    RunGrows(Start(f, None), lines, j + 1, |lines|, resolve);
    assert lines[..|lines|] == lines;
    RunLinesNext(Start(e, budget), lines, j, resolve);
    RunLinesNext(Start(e, None), lines, j, resolve);
    StepUndying(was, lines[j], resolve);
    StepsAgree(whole, Revived(was.m, was.e), lines[j], resolve);
    StepKeepsBaseline(was, lines[j], resolve);
    BaselineStays(Start(e, None), lines, j + 1, |lines|, resolve);
  }

  // For any log written in order, whatever it is cut by: the repeat ends as the
  // uninterrupted import would exactly when every look-up already made replays
  // harmlessly.
  lemma RepeatCompletesIff(e: Evidence, lines: seq<Line>, p: nat, budget: Option<nat>, resolve: Resolver)
    requires p <= |lines| && InOrder(lines)
    ensures var f := Cut(e, lines, p, budget, resolve).e;
            Same(Import(f, lines, None, resolve), Import(e, lines, None, resolve))
            <==> Harmless(e, lines, p, p, budget, resolve)
  {
    hide Import;
    hide Cut;
    hide ReplaysLookUp;
    hide InOrder;
    if Harmless(e, lines, p, p, budget, resolve) {
      ImportingAgainCompletes(e, lines, p, budget, resolve);
    } else {
      var j :| 0 <= j < p && Cut(e, lines, j, budget, resolve).status == Going &&
        !ReplaysLookUp(Cut(e, lines, j, budget, resolve), lines[j], Cut(e, lines, p, budget, resolve).e);
      HarmfulRepeatStops(e, lines, j, p, budget, resolve);
    }
  }

  // ---- a child log that a repeat does not complete ---------------------------------------

  function Totals(n: Int64): Counters {
    [None, None, None, None, Some(n)]
  }

  const CHILD := Meta("child", "", "", "", "", 5, true)
  const NO_EVIDENCE := Evidence({}, [], [], 0)
  const FIRST := TokenCount(Some(Totals(20)), None, Some(6))
  const SECOND := TokenCount(Some(Totals(40)), None, Some(7))
  const THIRD := TokenCount(Some(Totals(60)), None, Some(8))
  const CHILD_LOG := [SessionMeta(Some(CHILD)), FIRST, SECOND, THIRD]

  function Unattributed(cwd: string): Option<string> {
    None
  }

  const NO_PROJECT := Attribution("unavailable", "unavailable", "")

  lemma TwentyTokensAccepted(e: Evidence)
    requires e.others + RecordedTokens(e.calls) <= 1000
    ensures AcceptedTotal(e, Totals(20)) == Some(20)
  {
    var d := Totals(20);
    var i := DeltaInput(d);
    assert Sum(Components(i)) == 0;
    assert i.metrics == [MetricOf(d, 4)];
    assert ReportedTotal(i.metrics, 0) == 20;
    assert TotalIs(i, 20);
  }

  function SampleAt(at: Instant, n: Int64): Sample {
    Sample("child", at, Totals(n))
  }

  function CallAt(at: Instant, n: Int64, base: Base): Interval {
    IntervalOf(SampleAt(at, n), Totals(20), base, 20, NO_PROJECT)
  }

  lemma TwentyMore(n: Int64)
    requires n >= 20
    ensures Difference(Totals(n), Some(Totals(n - 20))) == Some(Totals(20))
  {
    var d := Totals(20);
    assert Delta(Totals(n), Some(Totals(n - 20))) == d;
    assert d[4].Some? && d[4].value != 0;
  }

  lemma ChildOffers(m: Machine, at: Instant, n: Int64, line: Line, answer: Answer)
    requires m.meta == Some(CHILD) && m.childStarted && at > 5
    requires n >= 20 && m.previous == Some(Totals(n - 20)) && line == TokenCount(Some(Totals(n)), None, Some(at))
    ensures SampleOf(m, line) == SampleAt(at, n)
    ensures Act(m, line, answer, Unattributed)
         == Offer(Rebase(m, Totals(n), at), SampleAt(at, n), Totals(20), Base(m.previousAt, m.previous), NO_PROJECT)
  {
    hide Difference;
    TwentyMore(n);
  }

  // One interval of twenty tokens on top of the previous snapshot.
  lemma ChildStep(r: Run, at: Instant, n: Int64, line: Line)
    requires r.status == Going && r.budget == None && r.m.meta == Some(CHILD) && r.m.childStarted && at > 5
    requires n >= 20 && r.m.previous == Some(Totals(n - 20)) && line == TokenCount(Some(Totals(n)), None, Some(at))
    requires !Linked(r.e, SampleAt(at, n)) && SampleAt(at, n) !in r.e.raws
    requires Checkpoint(r.e, "child").Some? ==> Checkpoint(r.e, "child").value.at <= r.m.previousAt < at
    requires r.e.others + RecordedTokens(r.e.calls) <= 1000
    ensures var t := StepLine(r, line, Unattributed);
            && t.status == Going && t.m == Rebase(r.m, Totals(n), at) && t.budget == None
            && t.e == LinkCall(Appended(r.e, SampleAt(at, n)), CallAt(at, n, Base(r.m.previousAt, r.m.previous)))
  {
    var s := SampleAt(at, n);
    var base := Base(r.m.previousAt, r.m.previous);
    ChildOffers(r.m, at, n, line, Ask(r.e, s));
    assert PlanFor(r.e, s, Totals(20), base) == Store(Totals(20), base);
    TwentyTokensAccepted(Appended(r.e, s));
    hide AcceptedTotal;
    hide Act;
    hide PlanFor;
  }

  function ChildCut(p: nat): Run
    requires p <= 4
  {
    Cut(NO_EVIDENCE, CHILD_LOG, p, None, Unattributed)
  }

  const UNSTARTED := Machine(Some(CHILD), None, 0, false)
  const STARTED := Machine(Some(CHILD), Some(Totals(20)), 6, true)

  lemma ChildReadsHeader()
    ensures ChildCut(1) == Start(NO_EVIDENCE, None).(m := UNSTARTED)
  {
    RunLinesNext(Start(NO_EVIDENCE, None), CHILD_LOG, 0, Unattributed);
    assert CHILD_LOG[..0] == [];
  }

  lemma ChildSkipsFirst()
    ensures ChildCut(2) == ChildCut(1).(m := STARTED, skipped := 1)
    ensures LooksUp(ChildCut(1).m, FIRST) && SampleOf(ChildCut(1).m, FIRST) == SampleAt(6, 20)
  {
    ChildReadsHeader();
    RunLinesNext(Start(NO_EVIDENCE, None), CHILD_LOG, 1, Unattributed);
    assert SampleOf(UNSTARTED, FIRST) == SampleAt(6, 20);
    assert Ask(NO_EVIDENCE, SampleAt(6, 20)) == Answer(false, None);
    assert Act(UNSTARTED, FIRST, Answer(false, None), Unattributed) == Move(STARTED, 1, 0);
  }

  lemma ChildRecordsSecond()
    ensures ChildCut(3).status == Going && ChildCut(3).budget == None && ChildCut(3).m == Rebase(STARTED, Totals(40), 7)
    ensures ChildCut(3).e == LinkCall(Appended(NO_EVIDENCE, SampleAt(7, 40)), CallAt(7, 40, Base(6, Some(Totals(20)))))
  {
    hide StepLine;
    hide RunLines;
    hide LooksUp;
    ChildReadsHeader();
    ChildSkipsFirst();
    RunLinesNext(Start(NO_EVIDENCE, None), CHILD_LOG, 2, Unattributed);
    assert RecordedTokens(NO_EVIDENCE.calls) == 0 && Latest(NO_EVIDENCE.calls, "child") == None;
    ChildStep(ChildCut(2), 7, 40, SECOND);
  }

  lemma OneChildCall(c: Interval)
    requires c == CallAt(7, 40, Base(6, Some(Totals(20))))
    ensures RecordedTokens([c]) == 20 && Latest([c], "child") == Some(SampleAt(7, 40))
  {
    assert [c][..0] == [];
  }

  lemma ChildRecordsRest()
    ensures ChildCut(3).e.calls == [CallAt(7, 40, Base(6, Some(Totals(20))))]
    ensures |ChildCut(4).e.calls| == 2
  {
    hide StepLine;
    hide RunLines;
    hide Latest;
    hide RecordedTokens;
    ChildRecordsSecond();
    var second := CallAt(7, 40, Base(6, Some(Totals(20))));
    assert ChildCut(3).e.calls == [second];
    OneChildCall(second);
    RunLinesNext(Start(NO_EVIDENCE, None), CHILD_LOG, 3, Unattributed);
    ChildStep(ChildCut(3), 8, 60, THIRD);
  }

  lemma ChildConflicts()
    ensures ChildCut(1).status == Going && !ReplaysLookUp(ChildCut(1), FIRST, ChildCut(3).e)
  {
    hide StepLine;
    hide RunLines;
    ChildReadsHeader();
    ChildSkipsFirst();
    ChildRecordsRest();
    var f := ChildCut(3).e;
    assert Latest(f.calls, "child") == Some(SampleAt(7, 40)) by {
      assert f.calls[..0] == [];
    }
  }

  lemma ChildLeavesSomething()
    ensures !SameEvidence(ChildCut(3).e, Import(NO_EVIDENCE, CHILD_LOG, None, Unattributed).e)
  {
    hide RunLines;
    ChildRecordsRest();
    assert CHILD_LOG[..4] == CHILD_LOG;
  }

  // The first snapshot of a child without a baseline is skipped, but on a repeat
  // the intervals recorded after it make it conflict, so the rest stays lost.
  lemma BlindChildIsNotCompleted()
    ensures InOrder(CHILD_LOG)
    ensures !SameEvidence(Import(ChildCut(3).e, CHILD_LOG, None, Unattributed).e,
                          Import(NO_EVIDENCE, CHILD_LOG, None, Unattributed).e)
  {
    hide SameEvidence;
    hide Import;
    hide ReplaysLookUp;
    hide RunLines;
    ChildConflicts();
    ChildLeavesSomething();
    HarmfulRepeatStops(NO_EVIDENCE, CHILD_LOG, 1, 3, None, Unattributed);
    var again := Import(ChildCut(3).e, CHILD_LOG, None, Unattributed).e;
    var whole := Import(NO_EVIDENCE, CHILD_LOG, None, Unattributed).e;
    if SameEvidence(again, whole) { SameEvidenceChains(again, ChildCut(3).e, whole); }
  }

  lemma SameEvidenceChains(a: Evidence, b: Evidence, c: Evidence)
    requires SameEvidence(a, b) && SameEvidence(a, c)
    ensures SameEvidence(b, c)
  {
  }
}
