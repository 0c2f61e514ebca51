/** ReconcileOTLPUsage (internal/storage/sqlite/store.go): the ancestry of raw
    events through their spans, and the flag that excludes an ancestor call whose
    descendant reports the same usage. */
module Reconcile {
  import opened Basics
  import opened Calls

  // The span columns of a raw event; the table is keyed by the event's id.
  datatype Span = Span(trace: string, span: string, parent: string)

  type Spans = map<string, Span>

  // ---- the recursive query -------------------------------------------------

  // Its first arm joins a parent that has a trace and a span to a child.
  predicate Starts(g: Spans, a: string, d: string) {
    && a in g && d in g
    && g[d].trace == g[a].trace && g[d].parent == g[a].span
    && g[a].trace != "" && g[a].span != ""
  }

  // Its recursive arm joins the last event reached to a child, unguarded.
  predicate Continues(g: Spans, m: string, d: string) {
    m in g && d in g && g[d].trace == g[m].trace && g[d].parent == g[m].span
  }

  // A parent-span path: a guarded first link, then any further links.
  ghost predicate IsPath(g: Spans, p: seq<string>) {
    && |p| >= 2
    && Starts(g, p[0], p[1])
    && forall i :: 0 <= i < |p| - 1 ==> Continues(g, p[i], p[i + 1])
  }

  ghost predicate PathJoins(g: Spans, p: seq<string>, a: string, d: string) {
    IsPath(g, p) && p[0] == a && p[|p| - 1] == d
  }

  ghost predicate Reaches(g: Spans, a: string, d: string) {
    exists p :: PathJoins(g, p, a, d)
  }

  // The same spelled out on the span columns.
  lemma ReachesIsSpanPath(g: Spans, a: string, d: string)
    ensures Reaches(g, a, d) <==>
            exists p: seq<string> ::
              && |p| >= 2 && p[0] == a && p[|p| - 1] == d && (forall i :: 0 <= i < |p| ==> p[i] in g)
              && g[a].trace != "" && g[a].span != ""
              && forall i :: 0 <= i < |p| - 1 ==>
                   g[p[i + 1]].trace == g[p[i]].trace && g[p[i + 1]].parent == g[p[i]].span
  {
    if Reaches(g, a, d) {
      var p :| PathJoins(g, p, a, d);
      forall i | 0 <= i < |p| ensures p[i] in g {
        if i > 0 { assert Continues(g, p[i - 1], p[i]); }
      }
      forall i | 0 <= i < |p| - 1 ensures g[p[i + 1]].trace == g[p[i]].trace && g[p[i + 1]].parent == g[p[i]].span {
        assert Continues(g, p[i], p[i + 1]);
      }
    }
    forall p: seq<string> |
      && |p| >= 2 && p[0] == a && p[|p| - 1] == d && (forall i :: 0 <= i < |p| ==> p[i] in g)
      && g[a].trace != "" && g[a].span != ""
      && forall i :: 0 <= i < |p| - 1 ==> g[p[i + 1]].trace == g[p[i]].trace && g[p[i + 1]].parent == g[p[i]].span
      ensures Reaches(g, a, d)
    {
      forall i | 0 <= i < |p| - 1 ensures Continues(g, p[i], p[i + 1]) {
      }
      assert Starts(g, p[0], p[1]);
      assert PathJoins(g, p, a, d);
    }
  }

  lemma ReachesIsTransitive(g: Spans, a: string, b: string, c: string)
    requires Reaches(g, a, b) && Reaches(g, b, c)
    ensures Reaches(g, a, c)
  {
    var p :| PathJoins(g, p, a, b);
    var q :| PathJoins(g, q, b, c);
    var r := p + q[1..];
    forall i | 0 <= i < |r| - 1 ensures Continues(g, r[i], r[i + 1]) {
      if i < |p| - 1 {
        assert r[i] == p[i] && r[i + 1] == p[i + 1];
      } else {
        assert r[i] == q[i - |p| + 1] && r[i + 1] == q[i - |p| + 2];
      }
    }
    assert PathJoins(g, r, a, c);
  }

  // Events are only ever added, so no path is lost.
  lemma ReachesIsMonotone(g: Spans, h: Spans, a: string, d: string)
    requires forall e :: e in g ==> e in h && h[e] == g[e]
    requires Reaches(g, a, d)
    ensures Reaches(h, a, d)
  {
    var p :| PathJoins(g, p, a, d);
    assert forall i :: 0 <= i < |p| - 1 ==> Continues(g, p[i], p[i + 1]);
    assert PathJoins(h, p, a, d);
  }

  lemma StartsReaches(g: Spans, a: string, d: string)
    requires Starts(g, a, d)
    ensures Reaches(g, a, d)
  {
    assert PathJoins(g, [a, d], a, d);
  }

  lemma ReachesExtends(g: Spans, a: string, m: string, d: string)
    requires Reaches(g, a, m) && Continues(g, m, d)
    ensures Reaches(g, a, d)
  {
    var p :| PathJoins(g, p, a, m);
    assert PathJoins(g, p + [d], a, d);
  }

  // The query's result so far: it holds the first arm, holds only joined pairs,
  // and every row already taken from the queue has been extended.
  ghost predicate HoldsFirstArm(g: Spans, pairs: set<(string, string)>) {
    forall a, d :: Starts(g, a, d) ==> (a, d) in pairs
  }

  ghost predicate HoldsOnlyJoined(g: Spans, pairs: set<(string, string)>) {
    forall a, d :: (a, d) in pairs ==> Reaches(g, a, d)
  }

  ghost predicate Extended(g: Spans, done: set<(string, string)>, pairs: set<(string, string)>) {
    forall a, m, d :: (a, m) in done && Continues(g, m, d) ==> (a, d) in pairs
  }

  lemma {:induction false} ClosedSetHoldsPath(g: Spans, pairs: set<(string, string)>, p: seq<string>)
    requires HoldsFirstArm(g, pairs) && Extended(g, pairs, pairs)
    requires IsPath(g, p)
    ensures (p[0], p[|p| - 1]) in pairs
  {
    if |p| > 2 {
      var q := p[..|p| - 1];
      forall i | 0 <= i < |q| - 1 ensures Continues(g, q[i], q[i + 1]) {
        assert Continues(g, p[i], p[i + 1]);
      }
      ClosedSetHoldsPath(g, pairs, q);
      assert Continues(g, p[|p| - 2], p[|p| - 1]);
    }
  }

  // The new rows one queued row contributes through the recursive arm.
  function Contribution(g: Spans, pairs: set<(string, string)>, row: (string, string)): set<(string, string)> {
    set d | d in g.Keys && Continues(g, row.1, d) && (row.0, d) !in pairs :: (row.0, d)
  }

  lemma TakeRow(g: Spans, pairs: set<(string, string)>, pending: set<(string, string)>, row: (string, string))
    requires HoldsOnlyJoined(g, pairs) && Extended(g, pairs - pending, pairs)
    requires row in pending && pending <= pairs
    ensures var found := Contribution(g, pairs, row);
            && HoldsOnlyJoined(g, pairs + found)
            && Extended(g, (pairs + found) - ((pending - {row}) + found), pairs + found)
  {
    var found := Contribution(g, pairs, row);
    forall a, d | (a, d) in found ensures Reaches(g, a, d) {
      ReachesExtends(g, row.0, row.1, d);
    }
    var done := (pairs + found) - ((pending - {row}) + found);
    forall a, m, d | (a, m) in done && Continues(g, m, d) ensures (a, d) in pairs + found {
      assert (a, m) == row || (a, m) in pairs - pending;
    }
  }

  // The rows of the first arm.
  function FirstArm(g: Spans): set<(string, string)> {
    set a, d | a in g.Keys && d in g.Keys && Starts(g, a, d) :: (a, d)
  }

  function AllPairs(g: Spans): set<(string, string)> {
    set a, d | a in g.Keys && d in g.Keys :: (a, d)
  }

  lemma FirstArmBegins(g: Spans)
    ensures HoldsFirstArm(g, FirstArm(g)) && HoldsOnlyJoined(g, FirstArm(g)) && FirstArm(g) <= AllPairs(g)
  {
    forall a, d | (a, d) in FirstArm(g) ensures Reaches(g, a, d) {
      StartsReaches(g, a, d);
    }
  }

  // The queue shrinks, or the result grows within its bound.
  lemma WorkDecreases<T>(all: set<T>, pairs: set<T>, pending: set<T>, row: T, found: set<T>)
    requires row in pending && pending <= pairs <= all && found <= all && found !! pairs
    ensures (pending - {row}) + found <= pairs + found <= all
    ensures |all - (pairs + found)| < |all - pairs|
         || (|all - (pairs + found)| == |all - pairs| && |(pending - {row}) + found| < |pending|)
  {
    if found == {} {
      assert pairs + found == pairs;
      assert (pending - {row}) + found == pending - {row};
    } else {
      var left, right := all - (pairs + found), all - pairs;
      assert right == left + found && left !! found;
      assert |right| == |left| + |found|;
    }
  }

  lemma ClosedIsComplete(g: Spans, pairs: set<(string, string)>, pending: set<(string, string)>)
    requires pending == {}
    requires HoldsFirstArm(g, pairs) && HoldsOnlyJoined(g, pairs) && Extended(g, pairs - pending, pairs)
    ensures forall a, d :: (a, d) in pairs <==> Reaches(g, a, d)
  {
    assert pairs - pending == pairs;
    forall a, d | Reaches(g, a, d) ensures (a, d) in pairs {
      var p :| PathJoins(g, p, a, d);
      ClosedSetHoldsPath(g, pairs, p);
    }
  }

  // The recursive query evaluated as SQL evaluates it, row by row from a queue.
  // It terminates and yields exactly the pairs joined by a parent-span path.
  method Ancestry(g: Spans) returns (pairs: set<(string, string)>)
    ensures forall a, d :: (a, d) in pairs <==> Reaches(g, a, d)
  {
    pairs := FirstArm(g);
    var pending := pairs;
    FirstArmBegins(g);
    while pending != {}
      invariant pending <= pairs <= AllPairs(g)
      invariant HoldsFirstArm(g, pairs) && HoldsOnlyJoined(g, pairs)
      invariant Extended(g, pairs - pending, pairs)
      decreases |AllPairs(g) - pairs|, |pending|
    {
      var row :| row in pending;
      var found := Contribution(g, pairs, row);
      TakeRow(g, pairs, pending, row);
      WorkDecreases(AllPairs(g), pairs, pending, row, found);
      pending := (pending - {row}) + found;
      pairs := pairs + found;
    }
    ClosedIsComplete(g, pairs, pending);
  }

  // ---- the flag --------------------------------------------------------------

  // Provider, model and the six token columns agree.
  predicate SameUsage(p: ModelCall, c: ModelCall) {
    p.provider == c.provider && p.model == c.model && p.columns[..COST] == c.columns[..COST]
  }

  lemma SameUsageFields(p: ModelCall, c: ModelCall)
    ensures SameUsage(p, c) <==>
            && p.provider == c.provider && p.model == c.model
            && forall k :: 0 <= k < 6 ==> p.columns[k] == c.columns[k]
  {
    assert forall k :: 0 <= k < 6 ==> p.columns[..6][k] == p.columns[k] && c.columns[..6][k] == c.columns[k];
  }

  // A descendant call that makes the ancestor's usage redundant: a different
  // event below it, not also above it, reporting the same usage.
  ghost predicate Covers(g: Spans, p: ModelCall, c: ModelCall) {
    && p.rawEventId != c.rawEventId
    && Reaches(g, p.rawEventId, c.rawEventId) && !Reaches(g, c.rawEventId, p.rawEventId)
    && SameUsage(p, c)
  }

  ghost predicate Covered(g: Spans, calls: seq<ModelCall>, p: ModelCall) {
    exists j :: 0 <= j < |calls| && Covers(g, p, calls[j])
  }

  ghost function Reconciled(g: Spans, calls: seq<ModelCall>): (r: seq<ModelCall>)
    ensures |r| == |calls|
  {
    seq(|calls|, i requires 0 <= i < |calls| =>
      calls[i].(reconciled := calls[i].reconciled || Covered(g, calls, calls[i])))
  }

  lemma CoversIsStrictOrder(g: Spans, a: ModelCall, b: ModelCall, c: ModelCall)
    ensures !Covers(g, a, a)
    ensures Covers(g, a, b) && Covers(g, b, c) ==> Covers(g, a, c)
  {
    if Covers(g, a, b) && Covers(g, b, c) {
      ReachesIsTransitive(g, a.rawEventId, b.rawEventId, c.rawEventId);
      if Reaches(g, c.rawEventId, a.rawEventId) {
        ReachesIsTransitive(g, c.rawEventId, a.rawEventId, b.rawEventId);
        assert false;
      }
    }
  }

  ghost function Coverers(g: Spans, calls: seq<ModelCall>, p: ModelCall): set<int> {
    set j | 0 <= j < |calls| && Covers(g, p, calls[j])
  }

  // At or below any call there is one with the same usage that nothing covers.
  lemma {:induction false} Deepest(g: Spans, calls: seq<ModelCall>, i: int) returns (m: int)
    requires 0 <= i < |calls|
    ensures 0 <= m < |calls| && !Covered(g, calls, calls[m]) && SameUsage(calls[i], calls[m])
    ensures m == i || Reaches(g, calls[i].rawEventId, calls[m].rawEventId)
    decreases |Coverers(g, calls, calls[i])|
  {
    if !Covered(g, calls, calls[i]) {
      return i;
    }
    var j :| 0 <= j < |calls| && Covers(g, calls[i], calls[j]);
    var above, next := Coverers(g, calls, calls[i]), Coverers(g, calls, calls[j]);
    forall k | k in next ensures k in above {
      CoversIsStrictOrder(g, calls[i], calls[j], calls[k]);
    }
    CoversIsStrictOrder(g, calls[j], calls[j], calls[j]);
    assert j in above && j !in next;
    SubsetSize(next, above);
    m := Deepest(g, calls, j);
    if m != j {
      ReachesIsTransitive(g, calls[i].rawEventId, calls[j].rawEventId, calls[m].rawEventId);
    }
  }

  lemma SubsetSize(a: set<int>, b: set<int>)
    requires a < b
    ensures |a| < |b|
  {
    assert b == a + (b - a);
    assert b - a != {};
  }

  // ---- runs --------------------------------------------------------------------

  datatype TraceState = TraceState(spans: Spans, calls: seq<ModelCall>)

  datatype Op =
    | AppendEvent(id: string, span: Span)
    | RecordCall(input: CallInput, callId: string, keysResolve: bool)
    | ReconcileUsage(rawEventId: string)

  const EMPTY := TraceState(map[], [])

  ghost function Step(s: TraceState, op: Op): TraceState {
    match op
    // raw_events.id is a primary key and no event is ever changed.
    case AppendEvent(id, span) => if id in s.spans then s else s.(spans := s.spans[id := span])
    case RecordCall(input, callId, keysResolve) => s.(calls := Calls.Recorded(s.calls, input, callId, keysResolve))
    // Nothing is done for a call that has no raw event.
    case ReconcileUsage(rawEventId) => if rawEventId == "" then s else s.(calls := Reconciled(s.spans, s.calls))
  }

  // Main result on one reconciliation: for a call with a raw event it flags exactly the
  // calls that have a descendant call, in another event and not also an ancestor, with the
  // same provider, model and six counts; no flag is cleared, and nothing else is touched.
  lemma FlagsExactly(s: TraceState, rawEventId: string, i: nat)
    requires i < |s.calls|
    ensures var after := Step(s, ReconcileUsage(rawEventId));
            && after.spans == s.spans && |after.calls| == |s.calls|
            && after.calls[i].(reconciled := s.calls[i].reconciled) == s.calls[i]
            && (after.calls[i].reconciled <==>
                  || s.calls[i].reconciled
                  || (rawEventId != "" && exists j ::
                        && 0 <= j < |s.calls|
                        && s.calls[i].rawEventId != s.calls[j].rawEventId
                        && Reaches(s.spans, s.calls[i].rawEventId, s.calls[j].rawEventId)
                        && !Reaches(s.spans, s.calls[j].rawEventId, s.calls[i].rawEventId)
                        && s.calls[i].provider == s.calls[j].provider && s.calls[i].model == s.calls[j].model
                        && forall k :: 0 <= k < 6 ==> s.calls[i].columns[k] == s.calls[j].columns[k]))
  {
    hide Reaches;
    hide SameUsage;
    forall j | 0 <= j < |s.calls|
      ensures SameUsage(s.calls[i], s.calls[j]) <==>
              && s.calls[i].provider == s.calls[j].provider && s.calls[i].model == s.calls[j].model
              && forall k :: 0 <= k < 6 ==> s.calls[i].columns[k] == s.calls[j].columns[k]
    {
      SameUsageFields(s.calls[i], s.calls[j]);
    }
  }

  ghost function Run(s: TraceState, ops: seq<Op>): TraceState {
    if ops == [] then s else Step(Run(s, ops[..|ops| - 1]), ops[|ops| - 1])
  }

  // Some counted call below stands for the excluded one.
  ghost predicate StandsFor(g: Spans, excluded: ModelCall, counted: ModelCall) {
    && !counted.reconciled
    && Reaches(g, excluded.rawEventId, counted.rawEventId)
    && SameUsage(excluded, counted)
  }

  ghost predicate Survives(s: TraceState) {
    forall i :: 0 <= i < |s.calls| && s.calls[i].reconciled ==>
      exists j :: 0 <= j < |s.calls| && StandsFor(s.spans, s.calls[i], s.calls[j])
  }

  ghost predicate Echoes(g: Spans, p: ModelCall, c: ModelCall) {
    p.rawEventId != c.rawEventId && Reaches(g, p.rawEventId, c.rawEventId) && SameUsage(p, c)
  }

  // Every exclusion, whenever it was made, is explained by a path in the graph.
  ghost predicate Explained(s: TraceState) {
    forall i :: 0 <= i < |s.calls| && s.calls[i].reconciled ==>
      exists j :: 0 <= j < |s.calls| && Echoes(s.spans, s.calls[i], s.calls[j])
  }

  ghost predicate Inv(s: TraceState) {
    OneCallPerEvent(s.calls) && Survives(s) && Explained(s)
  }

  // A call left uncovered but excluded earlier still has a counted descendant:
  // the one that stood for it was not excluded by this reconciliation either.
  lemma StandInRemains(s: TraceState, m: int) returns (k: int)
    requires Inv(s)
    requires 0 <= m < |s.calls| && !Covered(s.spans, s.calls, s.calls[m])
    ensures 0 <= k < |s.calls| && !Reconciled(s.spans, s.calls)[k].reconciled
    ensures SameUsage(s.calls[m], s.calls[k])
    ensures k == m || Reaches(s.spans, s.calls[m].rawEventId, s.calls[k].rawEventId)
  {
    if !s.calls[m].reconciled {
      return m;
    }
    k :| 0 <= k < |s.calls| && StandsFor(s.spans, s.calls[m], s.calls[k]);
    forall d | 0 <= d < |s.calls| ensures !Covers(s.spans, s.calls[k], s.calls[d]) {
      CoveredStandInCovers(s.spans, s.calls[m], s.calls[k], s.calls[d]);
    }
  }

  // What covers a descendant with the same usage covers the ancestor too.
  lemma CoveredStandInCovers(g: Spans, m: ModelCall, k: ModelCall, d: ModelCall)
    requires Reaches(g, m.rawEventId, k.rawEventId) && SameUsage(m, k)
    ensures Covers(g, k, d) ==> Covers(g, m, d)
  {
    if Covers(g, k, d) {
      ReachesIsTransitive(g, m.rawEventId, k.rawEventId, d.rawEventId);
      if Reaches(g, d.rawEventId, m.rawEventId) {
        ReachesIsTransitive(g, d.rawEventId, m.rawEventId, k.rawEventId);
        assert false;
      }
    }
  }

  lemma ReconcileSurvives(s: TraceState)
    requires Inv(s)
    ensures Survives(s.(calls := Reconciled(s.spans, s.calls)))
  {
    var after := Reconciled(s.spans, s.calls);
    forall i | 0 <= i < |after| && after[i].reconciled
      ensures exists j :: 0 <= j < |after| && StandsFor(s.spans, after[i], after[j])
    {
      // Start from a descendant, climb to the deepest call, then to its stand-in.
      var c: int;
      if s.calls[i].reconciled {
        c :| 0 <= c < |s.calls| && StandsFor(s.spans, s.calls[i], s.calls[c]);
      } else {
        c :| 0 <= c < |s.calls| && Covers(s.spans, s.calls[i], s.calls[c]);
      }
      var m := Deepest(s.spans, s.calls, c);
      if m != c {
        ReachesIsTransitive(s.spans, s.calls[i].rawEventId, s.calls[c].rawEventId, s.calls[m].rawEventId);
      }
      var k := StandInRemains(s, m);
      if k != m {
        ReachesIsTransitive(s.spans, s.calls[i].rawEventId, s.calls[m].rawEventId, s.calls[k].rawEventId);
      }
      assert StandsFor(s.spans, after[i], after[k]);
    }
  }

  lemma ReconcileExplains(s: TraceState)
    requires Inv(s)
    ensures Explained(s.(calls := Reconciled(s.spans, s.calls)))
  {
    var after := Reconciled(s.spans, s.calls);
    forall i | 0 <= i < |after| && after[i].reconciled
      ensures exists j :: 0 <= j < |after| && Echoes(s.spans, after[i], after[j])
    {
      var j: int;
      if s.calls[i].reconciled {
        j :| 0 <= j < |s.calls| && Echoes(s.spans, s.calls[i], s.calls[j]);
      } else {
        j :| 0 <= j < |s.calls| && Covers(s.spans, s.calls[i], s.calls[j]);
      }
      assert Echoes(s.spans, after[i], after[j]);
    }
  }

  // Growing either table keeps every exclusion justified.
  lemma GrowthKeepsInv(s: TraceState, t: TraceState)
    requires Inv(s) && OneCallPerEvent(t.calls)
    requires forall e :: e in s.spans ==> e in t.spans && t.spans[e] == s.spans[e]
    requires |s.calls| <= |t.calls| && t.calls[..|s.calls|] == s.calls
    requires forall i :: |s.calls| <= i < |t.calls| ==> !t.calls[i].reconciled
    ensures Inv(t)
  {
    forall i | 0 <= i < |t.calls| && t.calls[i].reconciled
      ensures exists j :: 0 <= j < |t.calls| && StandsFor(t.spans, t.calls[i], t.calls[j])
      ensures exists j :: 0 <= j < |t.calls| && Echoes(t.spans, t.calls[i], t.calls[j])
    {
      assert t.calls[i] == s.calls[i];
      var j :| 0 <= j < |s.calls| && StandsFor(s.spans, s.calls[i], s.calls[j]);
      assert t.calls[j] == s.calls[j];
      ReachesIsMonotone(s.spans, t.spans, s.calls[i].rawEventId, s.calls[j].rawEventId);
      assert StandsFor(t.spans, t.calls[i], t.calls[j]);
      var k :| 0 <= k < |s.calls| && Echoes(s.spans, s.calls[i], s.calls[k]);
      assert t.calls[k] == s.calls[k];
      ReachesIsMonotone(s.spans, t.spans, s.calls[i].rawEventId, s.calls[k].rawEventId);
      assert Echoes(t.spans, t.calls[i], t.calls[k]);
    }
  }

  lemma StepKeepsInv(s: TraceState, op: Op)
    requires Inv(s)
    ensures Inv(Step(s, op))
  {
    hide Survives;
    hide Explained;
    hide OneCallPerEvent;
    hide Reconciled;
    hide Calls.Recorded;
    match op
    case AppendEvent(id, span) =>
      GrowthKeepsInv(s, Step(s, op));
    case RecordCall(input, callId, keysResolve) =>
      RecordedKeepsOneCallPerEvent(s.calls, input, callId, keysResolve);
      RecordedGrows(s.calls, input, callId, keysResolve);
      GrowthKeepsInv(s, Step(s, op));
    case ReconcileUsage(rawEventId) =>
      ReconcileSurvives(s);
      ReconcileExplains(s);
      ReconcileKeepsEvents(s.spans, s.calls);
  }

  lemma RecordedGrows(calls: seq<ModelCall>, input: CallInput, callId: string, keysResolve: bool)
    ensures var after := Calls.Recorded(calls, input, callId, keysResolve);
            && |calls| <= |after| && after[..|calls|] == calls
            && forall i :: |calls| <= i < |after| ==> !after[i].reconciled
  {
    hide CallTotal;
    hide MetricsStorable;
    hide TotalTokens;
    hide HasCallFor;
    hide CallFor;
  }

  lemma ReconcileKeepsEvents(g: Spans, calls: seq<ModelCall>)
    requires OneCallPerEvent(calls)
    ensures OneCallPerEvent(Reconciled(g, calls))
  {
    hide Covered;
  }

  lemma {:induction false} RunKeepsInv(ops: seq<Op>)
    ensures Inv(Run(EMPTY, ops))
  {
    if ops != [] {
      RunKeepsInv(ops[..|ops| - 1]);
      StepKeepsInv(Run(EMPTY, ops[..|ops| - 1]), ops[|ops| - 1]);
    }
  }

  // Main result: in every run of appends, recordings and reconciliations, in any
  // order and with span cycles, each excluded call has a counted descendant call
  // with the same provider, model and six token counts.
  lemma UsageNeverWhollyExcluded(ops: seq<Op>, i: int) returns (j: int)
    requires 0 <= i < |Run(EMPTY, ops).calls| && Run(EMPTY, ops).calls[i].reconciled
    ensures 0 <= j < |Run(EMPTY, ops).calls|
    ensures var s := Run(EMPTY, ops);
            var excluded, counted := s.calls[i], s.calls[j];
            && !counted.reconciled && Reaches(s.spans, excluded.rawEventId, counted.rawEventId)
            && excluded.provider == counted.provider && excluded.model == counted.model
            && forall k :: 0 <= k < 6 ==> excluded.columns[k] == counted.columns[k]
  {
    hide Run;
    hide Reaches;
    RunKeepsInv(ops);
    var s := Run(EMPTY, ops);
    j :| 0 <= j < |s.calls| && StandsFor(s.spans, s.calls[i], s.calls[j]);
    SameUsageFields(s.calls[i], s.calls[j]);
  }

  // And a call is excluded for no other reason: some descendant agrees with it on
  // all of these.
  lemma DifferentUsageIsCounted(ops: seq<Op>, i: int)
    requires 0 <= i < |Run(EMPTY, ops).calls|
    requires var s := Run(EMPTY, ops);
             var p := s.calls[i];
             forall j :: 0 <= j < |s.calls| && Reaches(s.spans, p.rawEventId, s.calls[j].rawEventId) ==>
               var c := s.calls[j];
               c.rawEventId == p.rawEventId || c.provider != p.provider || c.model != p.model
               || exists k :: 0 <= k < 6 && c.columns[k] != p.columns[k]
    ensures !Run(EMPTY, ops).calls[i].reconciled
  {
    hide Run;
    hide Reaches;
    RunKeepsInv(ops);
    var s := Run(EMPTY, ops);
    if s.calls[i].reconciled {
      var j :| 0 <= j < |s.calls| && Echoes(s.spans, s.calls[i], s.calls[j]);
      SameUsageFields(s.calls[i], s.calls[j]);
    }
  }

  // ---- acyclic graphs: arrival order does not matter -----------------------------

  ghost predicate Acyclic(g: Spans) {
    forall a :: !Reaches(g, a, a)
  }

  lemma AcyclicCovers(g: Spans, p: ModelCall, c: ModelCall)
    requires Acyclic(g)
    ensures Covers(g, p, c) <==> Reaches(g, p.rawEventId, c.rawEventId) && SameUsage(p, c)
  {
    if Reaches(g, p.rawEventId, c.rawEventId) && Reaches(g, c.rawEventId, p.rawEventId) {
      ReachesIsTransitive(g, p.rawEventId, c.rawEventId, p.rawEventId);
    }
  }

  ghost predicate HasEqualDescendant(s: TraceState, p: ModelCall) {
    exists j :: 0 <= j < |s.calls| && Reaches(s.spans, p.rawEventId, s.calls[j].rawEventId) && SameUsage(p, s.calls[j])
  }

  lemma ReconciliationSettles(s: TraceState, i: int)
    requires Inv(s) && Acyclic(s.spans) && 0 <= i < |s.calls|
    ensures Reconciled(s.spans, s.calls)[i].reconciled <==> HasEqualDescendant(s, s.calls[i])
  {
    if s.calls[i].reconciled {
      var j :| 0 <= j < |s.calls| && StandsFor(s.spans, s.calls[i], s.calls[j]);
      assert HasEqualDescendant(s, s.calls[i]);
    } else if HasEqualDescendant(s, s.calls[i]) {
      var j :| 0 <= j < |s.calls| && Reaches(s.spans, s.calls[i].rawEventId, s.calls[j].rawEventId)
               && SameUsage(s.calls[i], s.calls[j]);
      AcyclicCovers(s.spans, s.calls[i], s.calls[j]);
    }
  }

  // After a final reconciliation over an acyclic graph a call is excluded exactly
  // when some descendant call reports the same usage: the flags are a function
  // of the two tables, not of the order in which they were filled.
  lemma FinalFlags(ops: seq<Op>, rawEventId: string, i: int)
    requires rawEventId != "" && Acyclic(Run(EMPTY, ops).spans)
    requires 0 <= i < |Run(EMPTY, ops + [ReconcileUsage(rawEventId)]).calls|
    ensures var s := Run(EMPTY, ops + [ReconcileUsage(rawEventId)]);
            s.calls[i].reconciled <==> HasEqualDescendant(s, s.calls[i])
  {
    hide Run;
    hide Inv;
    hide Acyclic;
    hide HasEqualDescendant;
    hide Covered;
    var before := Run(EMPTY, ops);
    RunNext(ops, ReconcileUsage(rawEventId));
    var s := Run(EMPTY, ops + [ReconcileUsage(rawEventId)]);
    RunKeepsInv(ops);
    ReconciliationSettles(before, i);
    FlagsDoNotMatter(before, s, i);
  }

  // Whether a call has an equal descendant does not depend on any flag.
  lemma FlagsDoNotMatter(s: TraceState, t: TraceState, i: int)
    requires s.spans == t.spans && |s.calls| == |t.calls| && 0 <= i < |s.calls|
    requires forall k :: 0 <= k < |s.calls| ==> s.calls[k].(reconciled := false) == t.calls[k].(reconciled := false)
    ensures HasEqualDescendant(s, s.calls[i]) <==> HasEqualDescendant(t, t.calls[i])
  {
    hide Reaches;
    if HasEqualDescendant(s, s.calls[i]) {
      var j :| 0 <= j < |s.calls| && Reaches(s.spans, s.calls[i].rawEventId, s.calls[j].rawEventId)
          && SameUsage(s.calls[i], s.calls[j]);
      assert SameUsage(t.calls[i], t.calls[j]);
    }
    if HasEqualDescendant(t, t.calls[i]) {
      var j :| 0 <= j < |t.calls| && Reaches(t.spans, t.calls[i].rawEventId, t.calls[j].rawEventId)
          && SameUsage(t.calls[i], t.calls[j]);
      assert SameUsage(s.calls[i], s.calls[j]);
    }
  }

  // The rows of a call table with the flag cleared: what was recorded.
  function Recordings(calls: seq<ModelCall>): set<ModelCall> {
    set k | 0 <= k < |calls| :: calls[k].(reconciled := false)
  }

  lemma ReconcileKeepsRecordings(g: Spans, calls: seq<ModelCall>)
    ensures Recordings(Reconciled(g, calls)) == Recordings(calls)
  {
    var after := Reconciled(g, calls);
    forall k | 0 <= k < |calls| ensures after[k].(reconciled := false) == calls[k].(reconciled := false) {
    }
  }

  ghost predicate IsChain(g: Spans, chain: seq<string>) {
    forall k :: 0 <= k < |chain| - 1 ==> Starts(g, chain[k], chain[k + 1])
  }

  lemma ChainReachesForward(g: Spans, chain: seq<string>, d: int, e: int)
    requires IsChain(g, chain) && 0 <= d < e < |chain|
    ensures Reaches(g, chain[d], chain[e])
  {
    var p := chain[d..e + 1];
    forall i | 0 <= i < |p| - 1 ensures Continues(g, p[i], p[i + 1]) {
      assert Starts(g, chain[d + i], chain[d + i + 1]);
    }
    assert Starts(g, chain[d], chain[d + 1]);
    assert PathJoins(g, p, chain[d], chain[e]);
  }

  lemma ChainFlags(s: TraceState, chain: seq<string>, i: int, d: int)
    requires Acyclic(s.spans) && IsChain(s.spans, chain)
    requires forall k :: 0 <= k < |s.calls| ==> s.calls[k].rawEventId in chain
    requires forall k, l :: 0 <= k < |s.calls| && 0 <= l < |s.calls| ==> SameUsage(s.calls[k], s.calls[l])
    requires 0 <= i < |s.calls| && 0 <= d < |chain| && chain[d] == s.calls[i].rawEventId
    ensures HasEqualDescendant(s, s.calls[i]) <==>
            exists j, e :: 0 <= j < |s.calls| && 0 <= e < |chain| && chain[e] == s.calls[j].rawEventId && e > d
  {
    forall j, e | 0 <= j < |s.calls| && 0 <= e < |chain| && chain[e] == s.calls[j].rawEventId && e > d
      ensures HasEqualDescendant(s, s.calls[i])
    {
      ChainReachesForward(s.spans, chain, d, e);
    }
    if HasEqualDescendant(s, s.calls[i]) {
      var j :| 0 <= j < |s.calls| && Reaches(s.spans, s.calls[i].rawEventId, s.calls[j].rawEventId);
      var e :| 0 <= e < |chain| && chain[e] == s.calls[j].rawEventId;
      if e < d {
        ChainReachesForward(s.spans, chain, e, d);
        ReachesIsTransitive(s.spans, chain[e], chain[d], chain[e]);
      }
    }
  }

  // Along a linear chain of events whose calls all report the same usage, the
  // one call counted after a final reconciliation is the deepest.
  lemma OnlyDeepestCounted(ops: seq<Op>, rawEventId: string, chain: seq<string>, i: int, d: int)
    requires rawEventId != "" && Acyclic(Run(EMPTY, ops).spans)
    requires var s := Run(EMPTY, ops + [ReconcileUsage(rawEventId)]);
             && IsChain(s.spans, chain)
             && (forall k :: 0 <= k < |s.calls| ==> s.calls[k].rawEventId in chain)
             && (forall k, l :: 0 <= k < |s.calls| && 0 <= l < |s.calls| ==> SameUsage(s.calls[k], s.calls[l]))
             && 0 <= i < |s.calls| && 0 <= d < |chain| && chain[d] == s.calls[i].rawEventId
    ensures var s := Run(EMPTY, ops + [ReconcileUsage(rawEventId)]);
            s.calls[i].reconciled <==>
            exists j, e :: 0 <= j < |s.calls| && 0 <= e < |chain| && chain[e] == s.calls[j].rawEventId && e > d
  {
    assert (ops + [ReconcileUsage(rawEventId)])[..|ops|] == ops;
    FinalFlags(ops, rawEventId, i);
    ChainFlags(Run(EMPTY, ops + [ReconcileUsage(rawEventId)]), chain, i, d);
  }

  // ---- when arrival order matters ---------------------------------------------------

  predicate Within(h: Spans, g: Spans) {
    forall e :: e in h ==> e in g && g[e] == h[e]
  }

  ghost predicate CoversWithin(h: Spans, g: Spans, calls: seq<ModelCall>, p: ModelCall, j: int) {
    Within(h, g) && 0 <= j < |calls| && Covers(h, p, calls[j])
  }

  // Some part of the spans, had it arrived first, covers the call.
  ghost predicate CoveredWithin(g: Spans, calls: seq<ModelCall>, p: ModelCall) {
    exists h, j :: CoversWithin(h, g, calls, p, j)
  }

  // The flags of one run come from the graphs it went through.
  ghost predicate Foreseen(s: TraceState) {
    forall i :: 0 <= i < |s.calls| && s.calls[i].reconciled ==> CoveredWithin(s.spans, s.calls, s.calls[i])
  }

  // More events and calls, or other flags, leave a covering part a covering part.
  lemma CoveredWithinGrows(g: Spans, calls: seq<ModelCall>, p: ModelCall,
                           g': Spans, calls': seq<ModelCall>, p': ModelCall)
    requires Within(g, g') && |calls| <= |calls'|
    requires forall k :: 0 <= k < |calls| ==> calls[k].(reconciled := false) == calls'[k].(reconciled := false)
    requires p.(reconciled := false) == p'.(reconciled := false)
    requires CoveredWithin(g, calls, p)
    ensures CoveredWithin(g', calls', p')
  {
    hide Reaches;
    var h, j :| CoversWithin(h, g, calls, p, j);
    assert calls[j].(reconciled := false) == calls'[j].(reconciled := false);
    assert CoversWithin(h, g', calls', p', j);
  }

  lemma ReconcileForesees(s: TraceState)
    requires Foreseen(s)
    ensures Foreseen(s.(calls := Reconciled(s.spans, s.calls)))
  {
    hide Covers;
    var after := Reconciled(s.spans, s.calls);
    forall i | 0 <= i < |after| && after[i].reconciled ensures CoveredWithin(s.spans, after, after[i]) {
      if !s.calls[i].reconciled {
        var j :| 0 <= j < |s.calls| && Covers(s.spans, s.calls[i], s.calls[j]);
        assert CoversWithin(s.spans, s.spans, s.calls, s.calls[i], j);
      }
      CoveredWithinGrows(s.spans, s.calls, s.calls[i], s.spans, after, after[i]);
    }
  }

  lemma StepForesees(s: TraceState, op: Op)
    requires Foreseen(s)
    ensures Foreseen(Step(s, op))
  {
    hide CoveredWithin;
    if op.ReconcileUsage? {
      ReconcileForesees(s);
    } else {
      hide Reconciled;
      var t := Step(s, op);
      forall i | 0 <= i < |t.calls| && t.calls[i].reconciled ensures CoveredWithin(t.spans, t.calls, t.calls[i]) {
        CoveredWithinGrows(s.spans, s.calls, s.calls[i], t.spans, t.calls, t.calls[i]);
      }
    }
  }

  lemma {:induction false} RunForesees(ops: seq<Op>)
    ensures Foreseen(Run(EMPTY, ops))
  {
    hide Step;
    if ops != [] {
      RunForesees(ops[..|ops| - 1]);
      StepForesees(Run(EMPTY, ops[..|ops| - 1]), ops[|ops| - 1]);
    }
  }

  function Cleared(calls: seq<ModelCall>): (r: seq<ModelCall>)
    ensures |r| == |calls|
  {
    seq(|calls|, i requires 0 <= i < |calls| => calls[i].(reconciled := false))
  }

  lemma {:induction false} ClearedTotals(calls: seq<ModelCall>)
    ensures TotalTokens(Cleared(calls)) == TotalTokens(calls)
  {
    if calls != [] {
      ClearedTotals(calls[..|calls| - 1]);
      assert Cleared(calls)[..|calls| - 1] == Cleared(calls[..|calls| - 1]);
    }
  }

  // Recording a call does not look at the flags.
  lemma RecordedCleared(calls: seq<ModelCall>, input: CallInput, callId: string, keysResolve: bool)
    ensures Calls.Recorded(Cleared(calls), input, callId, keysResolve) ==
            Cleared(Calls.Recorded(calls, input, callId, keysResolve))
  {
    ClearedTotals(calls);
    var e := input.rawEventId;
    assert HasCallFor(calls, e) <==> HasCallFor(Cleared(calls), e) by {
      forall k | 0 <= k < |calls| && calls[k].rawEventId == e ensures HasCallFor(Cleared(calls), e) {
        assert Cleared(calls)[k].rawEventId == e;
      }
    }
    hide CallTotal;
    hide MetricsStorable;
    hide TotalTokens;
    hide HasCallFor;
    hide CallFor;
  }

  // One more operation of a run.
  lemma RunNext(ops: seq<Op>, op: Op)
    ensures Run(EMPTY, ops + [op]) == Step(Run(EMPTY, ops), op)
  {
    assert (ops + [op])[..|ops|] == ops;
  }

  lemma AppendOne(ops: seq<Op>, id: string, span: Span)
    requires id !in Run(EMPTY, ops).spans
    ensures var s := Run(EMPTY, ops);
            Run(EMPTY, ops + [AppendEvent(id, span)]) == TraceState(s.spans[id := span], s.calls)
  {
    hide Run;
    RunNext(ops, AppendEvent(id, span));
  }

  lemma OneLeft(g: Spans, have: Spans, id: string)
    requires Within(have, g) && id in g && id !in have
    ensures Within(have[id := g[id]], g)
    ensures |g.Keys - have[id := g[id]].Keys| < |g.Keys - have.Keys|
  {
    assert g.Keys - have.Keys == (g.Keys - have[id := g[id]].Keys) + {id};
  }

  // A run can go on to any larger graph,
  lemma {:induction false} AppendAll(ops: seq<Op>, g: Spans) returns (more: seq<Op>)
    requires Within(Run(EMPTY, ops).spans, g)
    ensures Run(EMPTY, more) == TraceState(g, Run(EMPTY, ops).calls)
    decreases |g.Keys - Run(EMPTY, ops).spans.Keys|
  {
    hide Run;
    hide Step;
    hide Within;
    var have := Run(EMPTY, ops).spans;
    if id :| id in g && id !in have {
      AppendOne(ops, id, g[id]);
      OneLeft(g, have, id);
      more := AppendAll(ops + [AppendEvent(id, g[id])], g);
    } else {
      NoneLeft(g, have);
      more := ops;
    }
  }

  lemma NoneLeft(g: Spans, have: Spans)
    requires Within(have, g) && forall id :: id in g ==> id in have
    ensures have == g
  {
  }

  // and record what any other run recorded, in the same order.
  lemma {:induction false} RecordAll(start: seq<Op>, ops: seq<Op>) returns (more: seq<Op>)
    requires Run(EMPTY, start).calls == []
    ensures Run(EMPTY, more) == TraceState(Run(EMPTY, start).spans, Cleared(Run(EMPTY, ops).calls))
    decreases |ops|
  {
    hide Calls.Recorded;
    if ops == [] {
      return start;
    }
    var init, op := ops[..|ops| - 1], ops[|ops| - 1];
    var before := Run(EMPTY, init);
    more := RecordAll(start, init);
    if op.RecordCall? {
      RecordedCleared(before.calls, op.input, op.callId, op.keysResolve);
      RunNext(more, op);
      more := more + [op];
    } else if op.ReconcileUsage? {
      assert Cleared(Reconciled(before.spans, before.calls)) == Cleared(before.calls);
    }
  }

  // Covering does not look at flags, so equal recordings cover alike.
  lemma CoveredAlike(g: Spans, a: seq<ModelCall>, p: ModelCall, b: seq<ModelCall>, q: ModelCall)
    requires Recordings(a) == Recordings(b) && p.(reconciled := false) == q.(reconciled := false)
    requires Covered(g, a, p)
    ensures Covered(g, b, q)
  {
    hide Reaches;
    var k :| 0 <= k < |a| && Covers(g, p, a[k]);
    assert a[k].(reconciled := false) in Recordings(b);
    var l :| 0 <= l < |b| && b[l].(reconciled := false) == a[k].(reconciled := false);
    assert Covers(g, q, b[l]);
  }

  lemma CoveredWithinAlike(g: Spans, a: seq<ModelCall>, p: ModelCall, b: seq<ModelCall>, q: ModelCall)
    requires Recordings(a) == Recordings(b) && p.(reconciled := false) == q.(reconciled := false)
    requires CoveredWithin(g, a, p)
    ensures CoveredWithin(g, b, q)
  {
    hide Reaches;
    hide Recordings;
    var h, k :| CoversWithin(h, g, a, p, k);
    CoveredAlike(h, a, p, b, q);
    var l :| 0 <= l < |b| && Covers(h, q, b[l]);
    assert CoversWithin(h, g, b, q, l);
  }

  lemma ClearedRecordings(calls: seq<ModelCall>)
    ensures Recordings(Cleared(calls)) == Recordings(calls)
  {
    forall k | 0 <= k < |calls| ensures Cleared(calls)[k].(reconciled := false) == calls[k].(reconciled := false) {
    }
  }

  // A run of the same events and calls that ends with the other flag.
  ghost predicate EndsOtherwise(s: TraceState, i: nat, ops: seq<Op>, rawEventId: string)
    requires i < |s.calls|
  {
    var t := Run(EMPTY, ops + [ReconcileUsage(rawEventId)]);
    && rawEventId != "" && t.spans == s.spans && Recordings(t.calls) == Recordings(s.calls)
    && exists j :: 0 <= j < |t.calls| && t.calls[j] == s.calls[i].(reconciled := !s.calls[i].reconciled)
  }

  ghost predicate DependsOnOrder(s: TraceState, i: nat)
    requires i < |s.calls|
  {
    exists ops, rawEventId :: EndsOtherwise(s, i, ops, rawEventId)
  }

  // After a last reconciliation a flag says that the call is covered, or was.
  lemma LastFlags(ops: seq<Op>, rawEventId: string, i: nat)
    requires rawEventId != "" && i < |Run(EMPTY, ops + [ReconcileUsage(rawEventId)]).calls|
    ensures var s := Run(EMPTY, ops + [ReconcileUsage(rawEventId)]);
            && (s.calls[i].reconciled ==> CoveredWithin(s.spans, s.calls, s.calls[i]))
            && (!s.calls[i].reconciled ==> !Covered(s.spans, s.calls, s.calls[i]))
  {
    hide CoveredWithin;
    hide Recordings;
    hide Run;
    RunForesees(ops + [ReconcileUsage(rawEventId)]);
    RunNext(ops, ReconcileUsage(rawEventId));
    var before := Run(EMPTY, ops);
    var s := Run(EMPTY, ops + [ReconcileUsage(rawEventId)]);
    ReconcileKeepsRecordings(before.spans, before.calls);
    if Covered(s.spans, s.calls, s.calls[i]) {
      CoveredAlike(s.spans, s.calls, s.calls[i], before.calls, before.calls[i]);
    }
  }

  // Everything first and one reconciliation: an uncovered call stays counted.
  lemma CountedLate(ops: seq<Op>, i: nat) returns (late: seq<Op>)
    requires i < |Run(EMPTY, ops).calls| && Run(EMPTY, ops).calls[i].reconciled
    requires !Covered(Run(EMPTY, ops).spans, Run(EMPTY, ops).calls, Run(EMPTY, ops).calls[i])
    ensures EndsOtherwise(Run(EMPTY, ops), i, late, "e")
  {
    var s := Run(EMPTY, ops);
    assert Run(EMPTY, []) == EMPTY;
    var first := AppendAll([], s.spans);
    late := RecordAll(first, ops);
    RunNext(late, ReconcileUsage("e"));
    ClearedRecordings(s.calls);
    ReconcileKeepsRecordings(s.spans, Cleared(s.calls));
    hide Run;
    hide Recordings;
    hide Covered;
    if Covered(s.spans, Cleared(s.calls), Cleared(s.calls)[i]) {
      CoveredAlike(s.spans, Cleared(s.calls), Cleared(s.calls)[i], s.calls, s.calls[i]);
    }
    assert Reconciled(s.spans, Cleared(s.calls))[i] == s.calls[i].(reconciled := false);
  }

  // The covering part and the calls first, then a reconciliation, then the rest.
  lemma ExcludedEarly(ops: seq<Op>, i: nat) returns (early: seq<Op>)
    requires i < |Run(EMPTY, ops).calls| && !Run(EMPTY, ops).calls[i].reconciled
    requires CoveredWithin(Run(EMPTY, ops).spans, Run(EMPTY, ops).calls, Run(EMPTY, ops).calls[i])
    ensures EndsOtherwise(Run(EMPTY, ops), i, early, "e")
  {
    var s := Run(EMPTY, ops);
    var h, j :| CoversWithin(h, s.spans, s.calls, s.calls[i], j);
    assert Run(EMPTY, []) == EMPTY;
    var first := AppendAll([], h);
    var recorded := RecordAll(first, ops);
    RunNext(recorded, ReconcileUsage("e"));
    early := AppendAll(recorded + [ReconcileUsage("e")], s.spans);
    RunNext(early, ReconcileUsage("e"));
    ClearedRecordings(s.calls);
    var once := Reconciled(h, Cleared(s.calls));
    ReconcileKeepsRecordings(h, Cleared(s.calls));
    ReconcileKeepsRecordings(s.spans, once);
    hide Run;
    hide Recordings;
    hide Reaches;
    assert Covers(h, Cleared(s.calls)[i], Cleared(s.calls)[j]);
    assert Reconciled(s.spans, once)[i] == s.calls[i].(reconciled := true);
  }

  // Main result, for any spans: another order of the same arrivals would have
  // given a call the other flag exactly when some part of the spans covers it
  // and the whole does not.
  lemma OrderMattersExactly(ops: seq<Op>, rawEventId: string, i: nat)
    requires rawEventId != "" && i < |Run(EMPTY, ops + [ReconcileUsage(rawEventId)]).calls|
    ensures var s := Run(EMPTY, ops + [ReconcileUsage(rawEventId)]);
            DependsOnOrder(s, i) <==>
            CoveredWithin(s.spans, s.calls, s.calls[i]) && !Covered(s.spans, s.calls, s.calls[i])
  {
    hide CoveredWithin;
    hide Covered;
    hide Recordings;
    hide Run;
    var all := ops + [ReconcileUsage(rawEventId)];
    var s := Run(EMPTY, all);
    LastFlags(ops, rawEventId, i);
    if CoveredWithin(s.spans, s.calls, s.calls[i]) && !Covered(s.spans, s.calls, s.calls[i]) {
      if s.calls[i].reconciled {
        var late := CountedLate(all, i);
      } else {
        var early := ExcludedEarly(all, i);
      }
    }
    if DependsOnOrder(s, i) {
      var ops2, raw2 :| EndsOtherwise(s, i, ops2, raw2);
      var t := Run(EMPTY, ops2 + [ReconcileUsage(raw2)]);
      var j :| 0 <= j < |t.calls| && t.calls[j] == s.calls[i].(reconciled := !s.calls[i].reconciled);
      LastFlags(ops2, raw2, j);
      if s.calls[i].reconciled {
        if Covered(s.spans, s.calls, s.calls[i]) {
          CoveredAlike(s.spans, s.calls, s.calls[i], t.calls, t.calls[j]);
        }
      } else {
        CoveredWithinAlike(s.spans, t.calls, t.calls[j], s.calls, s.calls[i]);
      }
    }
  }

  // On an acyclic graph a part never covers what the whole does not.
  lemma AcyclicWhole(g: Spans, calls: seq<ModelCall>, p: ModelCall)
    requires Acyclic(g) && CoveredWithin(g, calls, p)
    ensures Covered(g, calls, p)
  {
    hide Reaches;
    var h, j :| CoversWithin(h, g, calls, p, j);
    ReachesIsMonotone(h, g, p.rawEventId, calls[j].rawEventId);
    AcyclicCovers(g, p, calls[j]);
  }

  // So two runs that recorded the same events and calls in any two orders, with
  // reconciliations anywhere among them, end with the same flags there.
  lemma ArrivalOrderIrrelevant(ops1: seq<Op>, ops2: seq<Op>, raw1: string, raw2: string, i: nat, j: nat)
    requires raw1 != "" && raw2 != ""
    requires Run(EMPTY, ops1).spans == Run(EMPTY, ops2).spans && Acyclic(Run(EMPTY, ops1).spans)
    requires Recordings(Run(EMPTY, ops1).calls) == Recordings(Run(EMPTY, ops2).calls)
    requires i < |Run(EMPTY, ops1 + [ReconcileUsage(raw1)]).calls|
    requires j < |Run(EMPTY, ops2 + [ReconcileUsage(raw2)]).calls|
    requires Run(EMPTY, ops1 + [ReconcileUsage(raw1)]).calls[i].(reconciled := false)
          == Run(EMPTY, ops2 + [ReconcileUsage(raw2)]).calls[j].(reconciled := false)
    ensures Run(EMPTY, ops1 + [ReconcileUsage(raw1)]).calls[i] == Run(EMPTY, ops2 + [ReconcileUsage(raw2)]).calls[j]
  {
    hide Run;
    hide Recordings;
    hide Reaches;
    hide Acyclic;
    hide Covered;
    hide CoveredWithin;
    var s, t := Run(EMPTY, ops1 + [ReconcileUsage(raw1)]), Run(EMPTY, ops2 + [ReconcileUsage(raw2)]);
    var b, c := Run(EMPTY, ops1), Run(EMPTY, ops2);
    RunNext(ops1, ReconcileUsage(raw1));
    RunNext(ops2, ReconcileUsage(raw2));
    ReconcileKeepsRecordings(b.spans, b.calls);
    ReconcileKeepsRecordings(c.spans, c.calls);
    OrderMattersExactly(ops1, raw1, i);
    if CoveredWithin(s.spans, s.calls, s.calls[i]) {
      AcyclicWhole(s.spans, s.calls, s.calls[i]);
    }
    assert !EndsOtherwise(s, i, ops2, raw2);
  }

  // ---- a cyclic graph on which it matters ---------------------------------------------

  function PlainCall(rawEventId: string): CallInput {
    CallInput(rawEventId, "", "p", "m", "", "", 0, "", 1, 0, 0, 0, 0, 0, [])
  }

  const A_SPAN := Span("t", "A", "X")
  const B_SPAN := Span("t", "B", "A")
  const X_SPAN := Span("t", "X", "B")
  const CYCLE: Spans := map["a" := A_SPAN, "b" := B_SPAN, "x" := X_SPAN]

  const RECORD_A := RecordCall(PlainCall("a"), "1", true)
  const RECORD_B := RecordCall(PlainCall("b"), "2", true)
  const CYCLE_OPS := [AppendEvent("a", A_SPAN), AppendEvent("b", B_SPAN), AppendEvent("x", X_SPAN)]
  const TWO_CALLS := [Row(PlainCall("a"), "1", 1), Row(PlainCall("b"), "2", 1)]

  lemma CycleAppended()
    ensures Run(EMPTY, CYCLE_OPS) == TraceState(CYCLE, [])
  {
    assert Run(EMPTY, []) == EMPTY;
    hide Run;
    var o1 := [] + [AppendEvent("a", A_SPAN)];
    var o2 := o1 + [AppendEvent("b", B_SPAN)];
    AppendOne([], "a", A_SPAN);
    AppendOne(o1, "b", B_SPAN);
    AppendOne(o2, "x", X_SPAN);
    assert o2 + [AppendEvent("x", X_SPAN)] == CYCLE_OPS;
  }

  lemma RecordOne(calls: seq<ModelCall>, rawEventId: string, id: string)
    requires !HasCallFor(calls, rawEventId) && 0 <= TotalTokens(calls) <= 1
    ensures Calls.Recorded(calls, PlainCall(rawEventId), id, true) == calls + [Row(PlainCall(rawEventId), id, 1)]
  {
    var i := PlainCall(rawEventId);
    assert Components(i) == [1, 0, 0, 0, 0] && Sum([1, 0, 0, 0, 0]) == 1;
    assert TotalIs(i, 1);
  }

  lemma CycleRecorded()
    ensures Run(EMPTY, CYCLE_OPS + [RECORD_A] + [RECORD_B]) == TraceState(CYCLE, TWO_CALLS)
  {
    CycleAppended();
    RecordOne([], "a", "1");
    RecordOne([Row(PlainCall("a"), "1", 1)], "b", "2");
    hide Run;
    hide Calls.Recorded;
    RunNext(CYCLE_OPS, RECORD_A);
    RunNext(CYCLE_OPS + [RECORD_A], RECORD_B);
  }

  lemma ChildlessReachesNothing(g: Spans, a: string, d: string)
    requires forall e :: e in g ==> !Starts(g, a, e)
    ensures !Reaches(g, a, d)
  {
    assert forall p :: IsPath(g, p) && p[0] == a ==> p[1] in g;
  }

  // Without the event that closes the cycle the second call covers the first.
  lemma CycleCovering()
    ensures CoveredWithin(CYCLE, TWO_CALLS, TWO_CALLS[0]) && !Covered(CYCLE, TWO_CALLS, TWO_CALLS[0])
  {
    var open := map["a" := A_SPAN, "b" := B_SPAN];
    StartsReaches(open, "a", "b");
    ChildlessReachesNothing(open, "b", "a");
    assert CoversWithin(open, CYCLE, TWO_CALLS, TWO_CALLS[0], 1);
    assert PathJoins(CYCLE, ["b", "x", "a"], "b", "a");
  }

  // A late event that closes a cycle: had the calls been reconciled before it
  // arrived, the first would be excluded for good. Acyclicity is needed.
  lemma CyclesRememberArrivalOrder()
    ensures var s := Run(EMPTY, CYCLE_OPS + [RECORD_A] + [RECORD_B] + [ReconcileUsage("b")]);
            |s.calls| == 2 && DependsOnOrder(s, 0)
  {
    hide Run;
    hide Covered;
    hide CoveredWithin;
    hide Recordings;
    hide DependsOnOrder;
    var ops := CYCLE_OPS + [RECORD_A] + [RECORD_B];
    CycleRecorded();
    CycleCovering();
    RunNext(ops, ReconcileUsage("b"));
    ReconcileKeepsRecordings(CYCLE, TWO_CALLS);
    var s := Run(EMPTY, ops + [ReconcileUsage("b")]);
    OrderMattersExactly(ops, "b", 0);
    CoveredWithinGrows(CYCLE, TWO_CALLS, TWO_CALLS[0], CYCLE, s.calls, s.calls[0]);
    if Covered(CYCLE, s.calls, s.calls[0]) {
      CoveredAlike(CYCLE, s.calls, s.calls[0], TWO_CALLS, TWO_CALLS[0]);
    }
  }
}
