/** Whose usage a Codex import records: the session, provider, model and project of each
    recorded interval, read off the log's lines (internal/ingest/codexsession/import.go). */
module CodexAttribution {
  import opened Basics
  import opened Text
  import opened Calls
  import opened CodexImport
  import opened CodexResume

  // ---- what the lines say --------------------------------------------------------------

  // The first header is the log's own.
  function FirstHeader(lines: seq<Line>): Option<Meta> {
    if lines == [] then None
    else if lines[0].SessionMeta? && lines[0].meta.Some? then lines[0].meta
    else FirstHeader(lines[1..])
  }

  // A header that repeats the log's own.
  predicate Repeats(line: Line, h: Meta) {
    line.SessionMeta? && line.meta.Some? && line.meta.value.id == h.id
  }

  // A turn of the log's own: a child's header also carries turns of its parent, from
  // before the child was made.
  predicate OwnTurn(line: Line, h: Meta) {
    && line.TurnContext? && line.turn.Some?
    && !(h.child && h.created > 0 && line.at.Some? && line.at.value <= h.created)
  }

  // The provider, model and directory that hold after some lines: what was said last,
  // not counting what was left blank. A turn always says its model.
  function ProviderAfter(lines: seq<Line>, h: Meta): string {
    if lines == [] || FirstHeader(lines[..|lines| - 1]).None? then h.provider
    else
      var line := lines[|lines| - 1];
      if Repeats(line, h) && line.meta.value.provider != "" then line.meta.value.provider
      else ProviderAfter(lines[..|lines| - 1], h)
  }

  function ModelAfter(lines: seq<Line>, h: Meta): string {
    if lines == [] || FirstHeader(lines[..|lines| - 1]).None? then h.model
    else
      var line := lines[|lines| - 1];
      if Repeats(line, h) && line.meta.value.model != "" then line.meta.value.model
      else if OwnTurn(line, h) then line.turn.value.model
      else ModelAfter(lines[..|lines| - 1], h)
  }

  function DirectoryAfter(lines: seq<Line>, h: Meta): string {
    if lines == [] || FirstHeader(lines[..|lines| - 1]).None? then h.cwd
    else
      var line := lines[|lines| - 1];
      if Repeats(line, h) && line.meta.value.cwd != "" then line.meta.value.cwd
      else if OwnTurn(line, h) && TrimSpace(line.turn.value.cwd) != "" then line.turn.value.cwd
      else DirectoryAfter(lines[..|lines| - 1], h)
  }

  // A name is kept when it is short enough and has only harmless characters.
  predicate Printable(s: string) {
    && s != "" && Utf8Len(s) <= 256
    && forall i :: 0 <= i < |s| ==>
         'a' <= s[i] <= 'z' || 'A' <= s[i] <= 'Z' || '0' <= s[i] <= '9'
         || s[i] == '.' || s[i] == '_' || s[i] == ':' || s[i] == '/' || s[i] == '-'
  }

  function Shown(s: string): string {
    if Printable(s) then s else "unavailable"
  }

  lemma ShownExactly(s: string)
    ensures OrUnavailable(s) == Shown(s)
  {
    hide Utf8Len;
    assert forall c: char :: c in "._:/-" <==> c == '.' || c == '_' || c == ':' || c == '/' || c == '-';
  }

  // ---- whose usage it is -----------------------------------------------------------------

  // The interval is that of line i: of the log's own session, under the names and in the
  // project that hold there, and, for a child, not of its parent's time.
  predicate RecordedAt(c: Interval, lines: seq<Line>, i: nat, resolve: Resolver) {
    && i < |lines| && lines[i].TokenCount? && lines[i].usage.Some? && lines[i].at.Some?
    && FirstHeader(lines[..i]).Some?
    && var h, directory := FirstHeader(lines[..i]).value, DirectoryAfter(lines[..i], FirstHeader(lines[..i]).value);
       && c.sample.session == h.id && c.sample.at == lines[i].at.value && c.sample.usage == lines[i].usage.value
       && c.call.session == h.id && c.call.startedAt as int == lines[i].at.value as int
       && c.call.provider == Shown(ProviderAfter(lines[..i], h))
       && c.call.model == Shown(ModelAfter(lines[..i], h))
       && (if TrimSpace(directory) == "" then c.call.project == ""
           else resolve(TrimSpace(directory)) == Some(c.call.project))
       && (h.child ==> 0 < h.created < lines[i].at.value)
  }

  lemma {:induction false} FirstHeaderNext(lines: seq<Line>, line: Line)
    ensures FirstHeader(lines + [line]) ==
            if FirstHeader(lines).Some? then FirstHeader(lines)
            else if line.SessionMeta? then line.meta else None
  {
    if lines == [] {
      assert [line][1..] == [];
    } else {
      assert (lines + [line])[1..] == lines[1..] + [line];
      FirstHeaderNext(lines[1..], line);
    }
  }

  // What the machine knows after some lines.
  predicate Knows(m: Machine, lines: seq<Line>) {
    match FirstHeader(lines)
    case None => m.meta.None?
    case Some(h) =>
      m.meta.Some? &&
      var known := m.meta.value;
      && known.id == h.id && known.created == h.created && known.child == h.child
      && known.provider == ProviderAfter(lines, h) && known.model == ModelAfter(lines, h)
      && known.cwd == DirectoryAfter(lines, h)
  }

  lemma ActLearns(m: Machine, lines: seq<Line>, line: Line, answer: Answer, resolve: Resolver)
    requires Knows(m, lines) && !Act(m, line, answer, resolve).Halt?
    ensures Knows(Act(m, line, answer, resolve).m, lines + [line])
  {
    hide TrimSpace;
    hide CountTokens;
    FirstHeaderNext(lines, line);
    assert (lines + [line])[..|lines|] == lines;
    if line.TokenCount? && Counts(m, line) && line.at.Some? {
      CountTokensKeepsMeta(m, m.meta.value, line.usage.value, line.last, line.at.value, answer, resolve);
    }
  }

  lemma CountTokensKeepsMeta(m: Machine, meta: Meta, usage: Counters, last: Option<Counters>, at: Instant,
      answer: Answer, resolve: Resolver)
    ensures CountTokens(m, meta, usage, last, at, answer, resolve).m.meta == m.meta
  {
    hide Difference;
    hide ProjectOf;
    hide SameCounters;
  }

  // An offered interval is of this line.
  lemma OfferOfLine(m: Machine, lines: seq<Line>, line: Line, answer: Answer, resolve: Resolver)
    requires Knows(m, lines) && Act(m, line, answer, resolve).Offer?
    ensures var o := Act(m, line, answer, resolve);
            && line.TokenCount? && line.usage.Some? && line.at.Some? && FirstHeader(lines).Some?
            && var h, directory := FirstHeader(lines).value, DirectoryAfter(lines, FirstHeader(lines).value);
               && o.sample == Sample(h.id, line.at.value, line.usage.value)
               && o.attribution.provider == Shown(ProviderAfter(lines, h))
               && o.attribution.model == Shown(ModelAfter(lines, h))
               && (if TrimSpace(directory) == "" then o.attribution.project == ""
                   else resolve(TrimSpace(directory)) == Some(o.attribution.project))
               && (h.child ==> 0 < h.created < line.at.value)
  {
    hide TrimSpace;
    hide Difference;
    hide SameCounters;
    hide OrUnavailable;
    hide Shown;
    hide ProviderAfter;
    hide ModelAfter;
    hide DirectoryAfter;
    ShownExactly(m.meta.value.provider);
    ShownExactly(m.meta.value.model);
  }

  ghost predicate Recorded(c: Interval, lines: seq<Line>, resolve: Resolver) {
    exists i :: 0 <= i < |lines| && RecordedAt(c, lines, i, resolve)
  }

  ghost predicate AllRecorded(calls: seq<Interval>, n: nat, lines: seq<Line>, resolve: Resolver) {
    forall k :: n <= k < |calls| ==> Recorded(calls[k], lines, resolve)
  }

  lemma RecordedStays(c: Interval, lines: seq<Line>, line: Line, resolve: Resolver)
    requires Recorded(c, lines, resolve)
    ensures Recorded(c, lines + [line], resolve)
  {
    var i :| 0 <= i < |lines| && RecordedAt(c, lines, i, resolve);
    assert (lines + [line])[..i] == lines[..i];
    assert RecordedAt(c, lines + [line], i, resolve);
  }

  lemma AllRecordedStays(calls: seq<Interval>, n: nat, lines: seq<Line>, line: Line, resolve: Resolver)
    requires AllRecorded(calls, n, lines, resolve)
    ensures AllRecorded(calls, n, lines + [line], resolve)
  {
    hide Recorded;
    forall k | n <= k < |calls| ensures Recorded(calls[k], lines + [line], resolve) {
      RecordedStays(calls[k], lines, line, resolve);
    }
  }

  // Performing an action records at most the interval it offers.
  lemma PerformRecords(r: Run, action: Action)
    ensures var calls := Perform(r, action).e.calls;
            calls == r.e.calls ||
            (action.Offer? && |calls| == |r.e.calls| + 1 && calls[..|r.e.calls|] == r.e.calls
             && var c := calls[|r.e.calls|];
                && c.sample == action.sample && c.call.session == action.sample.session
                && c.call.startedAt as int == action.sample.at as int
                && c.call.provider == action.attribution.provider && c.call.model == action.attribution.model
                && c.call.project == action.attribution.project)
  {
    hide PlanFor;
    hide AcceptedTotal;
    hide MetricsFrom;
  }

  lemma StepRecords(r: Run, lines: seq<Line>, line: Line, resolve: Resolver, n: nat)
    requires (r.status == Going ==> Knows(r.m, lines)) && AllRecorded(r.e.calls, n, lines, resolve) && n <= |r.e.calls|
    ensures var after := StepLine(r, line, resolve);
            && AllRecorded(after.e.calls, n, lines + [line], resolve) && n <= |after.e.calls|
            && (after.status == Going ==> Knows(after.m, lines + [line]))
  {
    hide Knows;
    hide AllRecorded;
    hide Perform;
    hide Act;
    AllRecordedStays(r.e.calls, n, lines, line, resolve);
    if r.status == Going {
      var action := Act(r.m, line, Ask(r.e, SampleOf(r.m, line)), resolve);
      PerformRecords(r, action);
      PerformMoves(r, action);
      if !action.Halt? {
        ActLearns(r.m, lines, line, Ask(r.e, SampleOf(r.m, line)), resolve);
      }
      HaltEnds(r.m, line, Ask(r.e, SampleOf(r.m, line)), resolve);
      var calls := Perform(r, action).e.calls;
      if calls != r.e.calls {
        OfferOfLine(r.m, lines, line, Ask(r.e, SampleOf(r.m, line)), resolve);
        NewRecorded(r.e.calls, calls, n, lines, line, resolve);
      }
    }
  }

  lemma PerformMoves(r: Run, action: Action)
    ensures Perform(r, action).m == action.m
    ensures action.Halt? ==> Perform(r, action).status == action.status
  {
    hide PlanFor;
    hide AcceptedTotal;
  }

  lemma HaltEnds(m: Machine, line: Line, answer: Answer, resolve: Resolver)
    ensures Act(m, line, answer, resolve).Halt? ==> Act(m, line, answer, resolve).status != Going
  {
    hide Difference;
    hide ProjectOf;
    hide SameCounters;
  }

  lemma NewRecorded(before: seq<Interval>, after: seq<Interval>, n: nat, lines: seq<Line>, line: Line,
      resolve: Resolver)
    requires AllRecorded(before, n, lines + [line], resolve)
    requires |after| == |before| + 1 && after[..|before|] == before
    requires RecordedAt(after[|before|], lines + [line], |lines|, resolve)
    ensures AllRecorded(after, n, lines + [line], resolve)
  {
    hide RecordedAt;
    assert forall k :: 0 <= k < |before| ==> after[k] == before[k];
  }

  lemma {:induction false} RunRecords(e: Evidence, lines: seq<Line>, budget: Option<nat>, resolve: Resolver)
    ensures var r := RunLines(Start(e, budget), lines, resolve);
            && (r.status == Going ==> Knows(r.m, lines)) && AllRecorded(r.e.calls, |e.calls|, lines, resolve)
            && |e.calls| <= |r.e.calls|
  {
    hide StepLine;
    hide Knows;
    hide AllRecorded;
    if lines == [] {
      NothingKnown(e, budget, resolve);
    } else {
      var init, line := lines[..|lines| - 1], lines[|lines| - 1];
      assert lines == init + [line];
      RunRecords(e, init, budget, resolve);
      StepRecords(RunLines(Start(e, budget), init, resolve), init, line, resolve, |e.calls|);
    }
  }

  lemma NothingKnown(e: Evidence, budget: Option<nat>, resolve: Resolver)
    ensures Knows(Start(e, budget).m, []) && AllRecorded(Start(e, budget).e.calls, |e.calls|, [], resolve)
  {
  }

  // Main result: whatever a log holds and wherever its import ends, each call it records
  // is that of one snapshot line, under the names and in the project the lines before it
  // say, and a child's calls are all of its own time.
  lemma RecordedUnderItsNames(e: Evidence, lines: seq<Line>, budget: Option<nat>, resolve: Resolver, k: nat)
    returns (i: nat)
    requires |e.calls| <= k < |Import(e, lines, budget, resolve).e.calls|
    ensures RecordedAt(Import(e, lines, budget, resolve).e.calls[k], lines, i, resolve)
  {
    hide RunLines;
    hide RecordedAt;
    RunRecords(e, lines, budget, resolve);
    var c := Import(e, lines, budget, resolve).e.calls[k];
    assert Recorded(c, lines, resolve);
    var found :| 0 <= found < |lines| && RecordedAt(c, lines, found, resolve);
    i := found;
  }

  // ---- where a child begins ----------------------------------------------------------------

  // The log says itself that the last interval was the whole of a counter that just began.
  predicate Confirmed(usage: Counters, last: Option<Counters>) {
    && last.Some? && last.value[4].Some? && usage[4].Some?
    && (usage[0].Some? ==> last.value[0] == usage[0]) && (usage[1].Some? ==> last.value[1] == usage[1])
    && (usage[2].Some? ==> last.value[2] == usage[2]) && (usage[3].Some? ==> last.value[3] == usage[3])
    && last.value[4] == usage[4]
  }

  lemma ConfirmedExactly(usage: Counters, last: Option<Counters>)
    ensures SameCounters(usage, last) <==> Confirmed(usage, last)
  {
    if Confirmed(usage, last) {
      forall i | 0 <= i < 5 && usage[i].Some? ensures last.value[i] == usage[i] {
        assert i == 0 || i == 1 || i == 2 || i == 3 || i == 4;
      }
    }
  }

  // Main result on children: the first snapshot of a child's own time that says more than
  // the last inherited one is offered from nothing when the log confirms it, else from the
  // inherited one, else from what the store holds; with none of these it is not offered.
  lemma ChildBegins(m: Machine, meta: Meta, usage: Counters, last: Option<Counters>, at: Instant, answer: Answer,
      resolve: Resolver)
    requires meta.child && 0 < meta.created < at && !m.childStarted
    requires m.previous.Some? && m.previous.value[4].Some? ==> m.previous.value[4] != usage[4]
    ensures var action := CountTokens(m, meta, usage, last, at, answer, resolve);
            && (action.Offer? ==>
                  action.base.usage ==
                    if Confirmed(usage, last) then None
                    else if m.previous.Some? then m.previous
                    else if answer.checkpoint.Some? then Some(answer.checkpoint.value.usage) else None)
            && (!Confirmed(usage, last) && m.previous.None? ==>
                  (action.Offer? ==> !answer.linked && answer.checkpoint.Some? && answer.checkpoint.value.at < at))
            && (action.Offer? ==>
                  action.m.previous == Some(usage) && action.m.previousAt == at && action.m.childStarted)
  {
    hide Difference;
    hide ProjectOf;
    hide OrUnavailable;
    hide SameCounters;
    hide Confirmed;
    ConfirmedExactly(usage, last);
  }
}
