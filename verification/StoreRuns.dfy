/** Runs of the whole store: every operation of it as a step on all its tables, and
    what any run of them keeps (internal/storage/sqlite/store.go). */
module StoreRuns {
  import opened Basics
  import opened Text
  import opened AuditChain
  import opened Calls
  import Allocations
  import AllocationRuns
  import Capacity
  import Interactions
  import LedgerRuns
  import RawLedger
  import Reconcile
  import UsageTotals

  // The tables. Row k of `prompts.calls` holds the interaction columns of row k of
  // the call table.
  datatype Db = Db(ledger: RawLedger.Ledger, calls: Capacity.State, books: Allocations.Books,
      prompts: Interactions.State)

  const EMPTY := Db(RawLedger.EMPTY, Capacity.EMPTY, Allocations.EMPTY, Interactions.EMPTY)

  // The span columns of the events, by id.
  function SpansOf(events: seq<RawLedger.RawEvent>): Reconcile.Spans {
    if events == [] then map[]
    else
      var last := events[|events| - 1];
      SpansOf(events[..|events| - 1])[last.id := Reconcile.Span(last.links.trace, last.links.span, last.links.parent)]
  }

  // The sessions of the calls, by id.
  function SessionsOf(calls: seq<ModelCall>): map<string, string> {
    if calls == [] then map[]
    else SessionsOf(calls[..|calls| - 1])[calls[|calls| - 1].id := calls[|calls| - 1].session]
  }

  lemma SessionsNext(calls: seq<ModelCall>, c: ModelCall)
    ensures SessionsOf(calls + [c]) == SessionsOf(calls)[c.id := c.session]
  {
    assert (calls + [c])[..|calls|] == calls;
  }

  lemma {:induction false} SessionsKeys(calls: seq<ModelCall>, id: string)
    ensures id in SessionsOf(calls) <==> Capacity.HasId(calls, id)
  {
    if calls != [] {
      var init := calls[..|calls| - 1];
      SessionsKeys(init, id);
      if Capacity.HasId(init, id) {
        var k :| 0 <= k < |init| && init[k].id == id;
        assert calls[k].id == id;
      }
    }
  }

  lemma RowNames(i: CallInput, id: string, total: Int64)
    ensures var row := Row(i, id, total);
            row.id == id && row.session == i.session && row.rawEventId == i.rawEventId
  {
  }

  // ---- the operations ----------------------------------------------------------------

  function AppendEvent(sha: Sha, db: Db, input: RawLedger.RawInput, env: RawLedger.Env): Db {
    db.(ledger := RawLedger.Append(sha, db.ledger, input, env))
  }

  // `keysResolve` speaks of the row's keys but for its project.
  predicate KeysResolve(db: Db, i: CallInput, keysResolve: bool) {
    keysResolve && (i.project == "" || i.project in db.books.projects)
  }

  // The call with its interaction columns and, for a project, its first allocation.
  function RecordCall(sha: Sha, db: Db, i: CallInput, id: string, keysResolve: bool, upstream: string,
      interaction: string,
                      revisionId: string, createdAt: string): Db {
    var after := Capacity.Record(db.calls, i, id, KeysResolve(db, i, keysResolve));
    if after.calls == db.calls.calls then db.(calls := after)
    else
      Db(db.ledger, after, Allocations.RecordCall(sha, db.books, id, i.session, i.project, revisionId, createdAt),
         db.prompts.(calls := db.prompts.calls + [Interactions.Child(i.rawEventId, i.session, upstream, interaction)]))
  }

  ghost function ReconcileUsage(db: Db, rawEventId: string): Db {
    if rawEventId == "" then db
    else db.(calls := db.calls.(calls := Reconcile.Reconciled(SpansOf(db.ledger.events), db.calls.calls)))
  }

  function Allocate(sha: Sha, db: Db, op: Allocations.Op): Db {
    db.(books := Allocations.Step(sha, db.books, op))
  }

  function Deliver(db: Db, op: Interactions.Op): Db {
    db.(prompts := Interactions.Step(db.prompts, op))
  }

  // A store that is closed and opened again has nothing cached.
  function Reopen(db: Db): Db {
    db.(calls := db.calls.(recordedTokens := None))
  }

  // A call is recorded under the interaction that was looked up for it.
  datatype Op =
    | AppendOp(input: RawLedger.RawInput, env: RawLedger.Env)
    | RecordOp(call: CallInput, id: string, keysResolve: bool, source: string, upstream: string,
               revisionId: string, createdAt: string)
    | ReconcileOp(rawEventId: string)
    | AllocateOp(allocation: Allocations.Op)
    | PromptOp(prompt: Interactions.Op)
    | ReopenOp

  ghost function Step(sha: Sha, db: Db, op: Op): Db {
    match op
    case AppendOp(input, env) => AppendEvent(sha, db, input, env)
    case RecordOp(i, id, keysResolve, source, upstream, revisionId, createdAt) =>
      RecordCall(sha, db, i, id, keysResolve, upstream,
                 Interactions.Parent(db.prompts.interactions, source, i.session, upstream), revisionId, createdAt)
    case ReconcileOp(rawEventId) => ReconcileUsage(db, rawEventId)
    case AllocateOp(allocation) => Allocate(sha, db, allocation)
    case PromptOp(prompt) => Deliver(db, prompt)
    case ReopenOp => Reopen(db)
  }

  // Ids are fresh, and an event is received after the stored ones, from a source
  // free of NUL and under a trimmed version.
  ghost predicate Proper(sha: Sha, db: Db, op: Op) {
    match op
    case AppendOp(input, env) =>
      LedgerRuns.WellFormed(LedgerRuns.Arrival(input, env)) && LedgerRuns.Before(db.ledger.events, env.now)
    case RecordOp(_, _, _, _, _, revisionId, _) => AllocationRuns.FreshId(db.books, revisionId)
    case AllocateOp(allocation) => !allocation.NewCall? && AllocationRuns.FreshFor(db.books, allocation)
    case PromptOp(prompt) => !prompt.RecordCall?
    case _ => true
  }

  ghost function Run(sha: Sha, db: Db, ops: seq<Op>): Db {
    if ops == [] then db else Step(sha, Run(sha, db, ops[..|ops| - 1]), ops[|ops| - 1])
  }

  ghost predicate ProperRun(sha: Sha, db: Db, ops: seq<Op>) {
    ops != [] ==>
      var init := ops[..|ops| - 1];
      ProperRun(sha, db, init) && Proper(sha, Run(sha, db, init), ops[|ops| - 1])
  }

  // ---- what every run keeps --------------------------------------------------------------

  predicate SameRows(calls: seq<ModelCall>, children: seq<Interactions.Child>) {
    && |calls| == |children|
    && forall k :: 0 <= k < |calls| ==>
          calls[k].rawEventId == children[k].rawEventId && calls[k].session == children[k].session
  }

  ghost function TraceOf(db: Db): Reconcile.TraceState {
    Reconcile.TraceState(SpansOf(db.ledger.events), db.calls.calls)
  }

  // The ledger verifies and is in clock order; the cache is empty or exact and the
  // tokens fit a word; revisions, heads and projection agree; links are sound and
  // complete; every excluded call has a counted stand-in; and the tables agree on
  // which calls there are.
  ghost predicate Whole(sha: Sha, db: Db) {
    && LedgerRuns.WellKept(sha, db.ledger) && LedgerRuns.IdsDiffer(db.ledger.events)
    && Capacity.Sound(db.calls)
    && AllocationRuns.Kept(sha, db.books)
    && Interactions.Kept(db.prompts)
    && Reconcile.Inv(TraceOf(db))
    && db.books.calls == SessionsOf(db.calls.calls)
    && SameRows(db.calls.calls, db.prompts.calls)
  }

  lemma {:induction false} SpansKeys(events: seq<RawLedger.RawEvent>, id: string)
    ensures id in SpansOf(events) <==> RawLedger.HasId(events, id)
  {
    if events != [] {
      var init := events[..|events| - 1];
      SpansKeys(init, id);
      if RawLedger.HasId(init, id) {
        var k :| 0 <= k < |init| && init[k].id == id;
        assert events[k].id == id;
      }
    }
  }

  lemma SpansNext(events: seq<RawLedger.RawEvent>, e: RawLedger.RawEvent)
    ensures SpansOf(events + [e]) == SpansOf(events)[e.id := Reconcile.Span(e.links.trace, e.links.span,
            e.links.parent)]
  {
    assert (events + [e])[..|events|] == events;
  }

  lemma AppendKeeps(sha: Sha, db: Db, input: RawLedger.RawInput, env: RawLedger.Env)
    requires Digesting(sha) && Whole(sha, db)
    requires LedgerRuns.WellFormed(LedgerRuns.Arrival(input, env)) && LedgerRuns.Before(db.ledger.events, env.now)
    ensures Whole(sha, AppendEvent(sha, db, input, env))
  {
    hide LedgerRuns.WellKept;
    hide LedgerRuns.WellFormed;
    hide LedgerRuns.Before;
    hide Capacity.Sound;
    hide AllocationRuns.Kept;
    hide Interactions.Kept;
    hide Reconcile.Inv;
    hide SessionsOf;
    hide SpansOf;
    hide RawLedger.EventFor;
    hide RawLedger.Identity;
    hide RawLedger.AppendOutcome;
    hide RawLedger.HasId;
    hide LedgerRuns.RowOf;
    hide LedgerRuns.IdsDiffer;
    LedgerRuns.AppendStaysWellKept(sha, db.ledger, LedgerRuns.Arrival(input, env));
    LedgerRuns.AppendKeepsIdsDiffer(sha, db.ledger, LedgerRuns.Arrival(input, env));
    var after := AppendEvent(sha, db, input, env);
    if after.ledger.events != db.ledger.events {
      var e := RawLedger.EventFor(sha, db.ledger.events, input, env);
      AcceptedIsNew(sha, db.ledger, input, env);
      SpansNext(db.ledger.events, e);
      SpansKeys(db.ledger.events, e.id);
      TraceGrows(TraceOf(db), TraceOf(after));
    }
  }

  lemma AcceptedIsNew(sha: Sha, l: RawLedger.Ledger, input: RawLedger.RawInput, env: RawLedger.Env)
    requires RawLedger.AppendOutcome(sha, l, input, env).Accepted?
    ensures !RawLedger.HasId(l.events, RawLedger.EventFor(sha, l.events, input, env).id)
  {
    hide RawLedger.Identity;
    hide RawLedger.MaxSequence;
    hide RawLedger.HeadFor;
    hide RawLedger.HasId;
  }

  // A new event adds a span and leaves the calls.
  lemma TraceGrows(s: Reconcile.TraceState, t: Reconcile.TraceState)
    requires Reconcile.Inv(s) && t.calls == s.calls
    requires forall e :: e in s.spans ==> e in t.spans && t.spans[e] == s.spans[e]
    ensures Reconcile.Inv(t)
  {
    hide Reconcile.Survives;
    hide Reconcile.Explained;
    Reconcile.GrowthKeepsInv(s, t);
  }

  lemma RecordKeeps(sha: Sha, db: Db, i: CallInput, id: string, keysResolve: bool, source: string, upstream: string,
                    revisionId: string, createdAt: string)
    requires Digesting(sha) && Whole(sha, db) && AllocationRuns.FreshId(db.books, revisionId)
    ensures Whole(sha, RecordCall(sha, db, i, id, keysResolve, upstream,
                                  Interactions.Parent(db.prompts.interactions, source, i.session, upstream), revisionId,
                                      createdAt))
  {
    hide LedgerRuns.WellKept;
    hide Capacity.Sound;
    hide Capacity.Record;
    hide AllocationRuns.Kept;
    hide AllocationRuns.FreshId;
    hide Interactions.Kept;
    hide Interactions.Parent;
    hide Reconcile.Inv;
    hide Calls.Recorded;
    hide Allocations.RecordCall;
    hide SessionsOf;
    hide SpansOf;
    hide KeysResolve;
    var resolved := KeysResolve(db, i, keysResolve);
    Capacity.RecordSound(db.calls, i, id, resolved);
    Reconcile.StepKeepsInv(TraceOf(db), Reconcile.RecordCall(i, id, resolved && !Capacity.HasId(db.calls.calls, id)));
    if Capacity.Record(db.calls, i, id, resolved).calls != db.calls.calls {
      RecordedRow(db, i, id, keysResolve);
      AllocationRuns.NewCallKeeps(sha, db.books, id, i.session, i.project, revisionId, createdAt);
      BooksCalls(sha, db.books, id, i.session, i.project, revisionId, createdAt);
      Interactions.RecordKeeps(db.prompts, i.rawEventId, source, i.session, upstream);
    }
  }

  // An inserted row is new to the table and names a known project.
  lemma RecordedRow(db: Db, i: CallInput, id: string, keysResolve: bool)
    requires db.books.calls == SessionsOf(db.calls.calls)
    requires var resolved := KeysResolve(db, i, keysResolve) && !Capacity.HasId(db.calls.calls, id);
             Calls.Recorded(db.calls.calls, i, id, resolved) != db.calls.calls
    ensures var calls := Calls.Recorded(db.calls.calls, i, id, KeysResolve(db, i, keysResolve)
            && !Capacity.HasId(db.calls.calls, id));
            && |calls| == |db.calls.calls| + 1 && calls[..|db.calls.calls|] == db.calls.calls
            && calls[|db.calls.calls|].rawEventId == i.rawEventId && calls[|db.calls.calls|].session == i.session
            && SessionsOf(calls) == db.books.calls[id := i.session]
    ensures id !in db.books.calls && (i.project != "" ==> i.project in db.books.projects)
  {
    hide CallTotal;
    hide MetricsStorable;
    hide TotalTokens;
    hide TrimSpace;
    hide HasCallFor;
    hide CallFor;
    hide Row;
    hide SessionsOf;
    hide Capacity.HasId;
    var row := Row(i, id, CallTotal(i).value);
    RowNames(i, id, CallTotal(i).value);
    SessionsNext(db.calls.calls, row);
    SessionsKeys(db.calls.calls, id);
  }

  lemma BooksCalls(sha: Sha, b: Allocations.Books, call: string, session: string, project: string, id: string,
      createdAt: string)
    requires call !in b.calls && (project != "" ==> project in b.projects)
    ensures Allocations.RecordCall(sha, b, call, session, project, id, createdAt).calls == b.calls[call := session]
  {
    hide Allocations.NewRevision;
    hide Allocations.SlotsOf;
  }

  // ---- reconciliation changes nothing but flags --------------------------------------------

  predicate FlagsApart(a: seq<ModelCall>, b: seq<ModelCall>) {
    |a| == |b| && forall k :: 0 <= k < |a| ==> a[k].(reconciled := false) == b[k].(reconciled := false)
  }

  lemma {:induction false} FlagsApartTotals(a: seq<ModelCall>, b: seq<ModelCall>)
    requires FlagsApart(a, b)
    ensures TotalTokens(a) == TotalTokens(b) && SessionsOf(a) == SessionsOf(b)
  {
    if a != [] {
      FlagsApartTotals(a[..|a| - 1], b[..|b| - 1]);
      assert a[|a| - 1].(reconciled := false) == b[|a| - 1].(reconciled := false);
    }
  }

  lemma FlagsApartSound(s: Capacity.State, t: Capacity.State)
    requires Capacity.Sound(s) && FlagsApart(s.calls, t.calls) && t.recordedTokens == s.recordedTokens
    ensures Capacity.Sound(t)
  {
    hide TotalTokens;
    hide UsageTotals.TokensCovered;
    FlagsApartTotals(s.calls, t.calls);
    forall k | 0 <= k < |s.calls|
      ensures t.calls[k].id == s.calls[k].id && t.calls[k].rawEventId == s.calls[k].rawEventId
      ensures UsageTotals.TokensCovered(t.calls[k])
    {
      FlagApart(s.calls[k], t.calls[k]);
    }
  }

  lemma FlagApart(c: ModelCall, d: ModelCall)
    requires c.(reconciled := false) == d.(reconciled := false)
    ensures c.id == d.id && c.rawEventId == d.rawEventId && c.session == d.session
    ensures UsageTotals.TokensCovered(c) <==> UsageTotals.TokensCovered(d)
  {
  }

  lemma ReconcileKeeps(sha: Sha, db: Db, rawEventId: string)
    requires Whole(sha, db)
    ensures Whole(sha, ReconcileUsage(db, rawEventId))
  {
    hide LedgerRuns.WellKept;
    hide Capacity.Sound;
    hide AllocationRuns.Kept;
    hide Interactions.Kept;
    hide Reconcile.Inv;
    hide Reconcile.Reconciled;
    hide SessionsOf;
    hide SpansOf;
    var after := ReconcileUsage(db, rawEventId);
    Reconcile.StepKeepsInv(TraceOf(db), Reconcile.ReconcileUsage(rawEventId));
    if rawEventId != "" {
      ReconciledFlags(SpansOf(db.ledger.events), db.calls.calls);
      FlagsApartTotals(db.calls.calls, after.calls.calls);
      FlagsApartSound(db.calls, after.calls);
      forall k | 0 <= k < |db.calls.calls|
        ensures after.calls.calls[k].rawEventId == db.calls.calls[k].rawEventId
        ensures after.calls.calls[k].session == db.calls.calls[k].session
      {
        FlagApart(db.calls.calls[k], after.calls.calls[k]);
      }
    }
  }

  lemma ReconciledFlags(g: Reconcile.Spans, calls: seq<ModelCall>)
    ensures FlagsApart(calls, Reconcile.Reconciled(g, calls))
  {
    hide Reconcile.Covered;
  }

  // ---- allocations and prompts ---------------------------------------------------------------

  lemma AllocationsKeepCalls(sha: Sha, b: Allocations.Books, op: Allocations.Op)
    requires !op.NewCall?
    ensures Allocations.Step(sha, b, op).calls == b.calls
  {
    hide Allocations.NewRevision;
    hide Allocations.SlotsOf;
    hide Allocations.Sorted;
    hide Allocations.SameShares;
    hide Allocations.Whole;
    hide Allocations.RevertRequest;
    hide Allocations.Decide;
    hide TrimSpace;
  }

  lemma AllocateKeeps(sha: Sha, db: Db, op: Allocations.Op)
    requires Digesting(sha) && Whole(sha, db) && !op.NewCall? && AllocationRuns.FreshFor(db.books, op)
    ensures Whole(sha, Allocate(sha, db, op))
  {
    hide LedgerRuns.WellKept;
    hide Capacity.Sound;
    hide AllocationRuns.Kept;
    hide AllocationRuns.FreshFor;
    hide Interactions.Kept;
    hide Reconcile.Inv;
    hide Allocations.Step;
    hide SessionsOf;
    hide SpansOf;
    AllocationRuns.StepKeeps(sha, db.books, op);
    AllocationsKeepCalls(sha, db.books, op);
  }

  lemma PromptKeeps(sha: Sha, db: Db, op: Interactions.Op)
    requires Whole(sha, db) && !op.RecordCall?
    ensures Whole(sha, Deliver(db, op))
  {
    hide LedgerRuns.WellKept;
    hide Capacity.Sound;
    hide AllocationRuns.Kept;
    hide Interactions.Kept;
    hide Interactions.Delivered;
    hide Reconcile.Inv;
    hide SessionsOf;
    hide SpansOf;
    Interactions.StepKeeps(db.prompts, op);
    if op.Deliver? {
      Interactions.DeliveryKeepsChildren(db.prompts, op, false);
      var children := Deliver(db, op).prompts.calls;
      forall k | 0 <= k < |children|
        ensures children[k].rawEventId == db.prompts.calls[k].rawEventId
                && children[k].session == db.prompts.calls[k].session
      {
        assert children[k].(interaction := "") == db.prompts.calls[k].(interaction := "");
      }
    }
  }

  lemma ReopenKeeps(sha: Sha, db: Db)
    requires Whole(sha, db)
    ensures Whole(sha, Reopen(db))
  {
    hide LedgerRuns.WellKept;
    hide AllocationRuns.Kept;
    hide Interactions.Kept;
    hide Reconcile.Inv;
    hide SessionsOf;
    hide SpansOf;
    hide TotalTokens;
  }

  lemma StepKeeps(sha: Sha, db: Db, op: Op)
    requires Digesting(sha) && Whole(sha, db) && Proper(sha, db, op)
    ensures Whole(sha, Step(sha, db, op))
  {
    hide Whole;
    hide AppendEvent;
    hide RecordCall;
    hide ReconcileUsage;
    hide Allocate;
    hide Deliver;
    hide Reopen;
    hide LedgerRuns.WellFormed;
    hide LedgerRuns.Before;
    hide AllocationRuns.FreshId;
    hide AllocationRuns.FreshFor;
    match op
    case AppendOp(input, env) => AppendKeeps(sha, db, input, env);
    case RecordOp(i, id, keysResolve, source, upstream, revisionId, createdAt) =>
      RecordKeeps(sha, db, i, id, keysResolve, source, upstream, revisionId, createdAt);
    case ReconcileOp(rawEventId) => ReconcileKeeps(sha, db, rawEventId);
    case AllocateOp(allocation) => AllocateKeeps(sha, db, allocation);
    case PromptOp(prompt) => PromptKeeps(sha, db, prompt);
    case ReopenOp => ReopenKeeps(sha, db);
  }

  lemma EmptyWhole(sha: Sha)
    ensures Whole(sha, EMPTY)
  {
  }

  // Main result: one invariant over runs of all the store's operations in any order.
  lemma {:induction false} RunsStayWhole(sha: Sha, ops: seq<Op>)
    requires Digesting(sha) && ProperRun(sha, EMPTY, ops)
    ensures Whole(sha, Run(sha, EMPTY, ops))
  {
    hide Whole;
    hide Step;
    hide Proper;
    if ops == [] {
      EmptyWhole(sha);
    } else {
      RunsStayWhole(sha, ops[..|ops| - 1]);
      StepKeeps(sha, Run(sha, EMPTY, ops[..|ops| - 1]), ops[|ops| - 1]);
    }
  }

  // ---- the same in the columns of the tables --------------------------------------------------

  lemma {:induction false} SpanOfRow(events: seq<RawLedger.RawEvent>, j: nat)
    requires LedgerRuns.IdsDiffer(events) && j < |events|
    ensures events[j].id in SpansOf(events)
    ensures var span := SpansOf(events)[events[j].id];
            && span.trace == events[j].links.trace && span.span == events[j].links.span
            && span.parent == events[j].links.parent
  {
    if j < |events| - 1 {
      SpanOfRow(events[..|events| - 1], j);
      assert events[j].id != events[|events| - 1].id;
    }
  }

  // What reconciliation reads: exactly the trace, span and parent of the accepted
  // arrivals, by the ids they were accepted under.
  lemma SpansAreArrivals(sha: Sha, arrivals: seq<LedgerRuns.Arrival>)
    ensures var spans := SpansOf(LedgerRuns.Run(sha, RawLedger.EMPTY, arrivals).events);
            && (forall k :: 0 <= k < |arrivals| && LedgerRuns.AcceptedAt(sha, arrivals, k) ==>
                  var links := arrivals[k].input.links;
                  && arrivals[k].env.id in spans
                  && spans[arrivals[k].env.id] == Reconcile.Span(links.trace, links.span, links.parent))
            && forall id :: id in spans ==>
                 exists k :: 0 <= k < |arrivals| && LedgerRuns.AcceptedAt(sha, arrivals, k) && arrivals[k].env.id == id
  {
    hide SpansOf;
    hide LedgerRuns.Run;
    hide LedgerRuns.AcceptedAt;
    hide LedgerRuns.IdsDiffer;
    var events := LedgerRuns.Run(sha, RawLedger.EMPTY, arrivals).events;
    LedgerRuns.RunIdsDiffer(sha, arrivals);
    forall k | 0 <= k < |arrivals| && LedgerRuns.AcceptedAt(sha, arrivals, k)
      ensures arrivals[k].env.id in SpansOf(events)
      ensures var links := arrivals[k].input.links;
              SpansOf(events)[arrivals[k].env.id] == Reconcile.Span(links.trace, links.span, links.parent)
    {
      var j := LedgerRuns.AcceptedIsStored(sha, arrivals, k);
      SpanOfRow(events, j);
    }
    forall id | id in SpansOf(events)
      ensures exists k :: 0 <= k < |arrivals| && LedgerRuns.AcceptedAt(sha, arrivals, k) && arrivals[k].env.id == id
    {
      SpansKeys(events, id);
      var j :| 0 <= j < |events| && events[j].id == id;
      var k := LedgerRuns.StoredWasAccepted(sha, arrivals, j);
      LedgerRuns.RowOfId(events[j], arrivals[k]);
    }
  }

  // Stored events that lead from one to another, each naming the span of the one
  // before it as its parent in the same trace.
  predicate Descends(events: seq<RawLedger.RawEvent>, path: seq<RawLedger.RawEvent>, above: string, below: string) {
    && |path| >= 2 && path[0].id == above && path[|path| - 1].id == below
    && (forall k :: 0 <= k < |path| ==> path[k] in events)
    && path[0].links.trace != "" && path[0].links.span != ""
    && forall k :: 0 <= k < |path| - 1 ==>
         path[k + 1].links.trace == path[k].links.trace && path[k + 1].links.parent == path[k].links.span
  }

  lemma RowWithId(events: seq<RawLedger.RawEvent>, id: string) returns (e: RawLedger.RawEvent)
    requires LedgerRuns.IdsDiffer(events) && id in SpansOf(events)
    ensures e in events && e.id == id
    ensures SpansOf(events)[id] == Reconcile.Span(e.links.trace, e.links.span, e.links.parent)
  {
    SpansKeys(events, id);
    var j: nat :| j < |events| && events[j].id == id;
    e := events[j];
    SpanOfRow(events, j);
  }

  // A path of spans is a path of stored events.
  lemma {:induction false} RowsOfPath(events: seq<RawLedger.RawEvent>, p: seq<string>)
    returns (path: seq<RawLedger.RawEvent>)
    requires LedgerRuns.IdsDiffer(events) && forall i :: 0 <= i < |p| ==> p[i] in SpansOf(events)
    ensures |path| == |p|
    ensures forall i :: 0 <= i < |p| ==>
              && path[i] in events && path[i].id == p[i]
              && SpansOf(events)[p[i]] == Reconcile.Span(path[i].links.trace, path[i].links.span, path[i].links.parent)
  {
    hide SpansOf;
    hide LedgerRuns.IdsDiffer;
    if p == [] {
      path := [];
    } else {
      var init := RowsOfPath(events, p[..|p| - 1]);
      var e := RowWithId(events, p[|p| - 1]);
      path := init + [e];
    }
  }

  // Main result: in every run of the whole store an excluded call's tokens are
  // counted once more, by a call of a stored descendant event with the same provider,
  // model and six counts.
  lemma ExcludedUsageIsCounted(sha: Sha, ops: seq<Op>, i: nat) returns (j: nat, path: seq<RawLedger.RawEvent>)
    requires Digesting(sha) && ProperRun(sha, EMPTY, ops)
    requires i < |Run(sha, EMPTY, ops).calls.calls| && Run(sha, EMPTY, ops).calls.calls[i].reconciled
    ensures var db := Run(sha, EMPTY, ops);
            j < |db.calls.calls| &&
            var excluded, counted := db.calls.calls[i], db.calls.calls[j];
            && !counted.reconciled && Descends(db.ledger.events, path, excluded.rawEventId, counted.rawEventId)
            && excluded.provider == counted.provider && excluded.model == counted.model
            && forall k :: 0 <= k < 6 ==> excluded.columns[k] == counted.columns[k]
  {
    hide Run;
    hide Whole;
    hide Proper;
    hide SpansOf;
    hide Descends;
    RunsStayWhole(sha, ops);
    var db := Run(sha, EMPTY, ops);
    var spans, calls := SpansOf(db.ledger.events), db.calls.calls;
    WholeTrace(sha, db);
    j := StandIn(db, i);
    Reconcile.SameUsageFields(calls[i], calls[j]);
    path := PathOfRows(db.ledger.events, calls[i].rawEventId, calls[j].rawEventId);
  }

  lemma WholeTrace(sha: Sha, db: Db)
    requires Whole(sha, db)
    ensures Reconcile.Inv(TraceOf(db)) && LedgerRuns.IdsDiffer(db.ledger.events)
  {
    hide Reconcile.Inv;
    hide LedgerRuns.IdsDiffer;
  }

  lemma StandIn(db: Db, i: nat) returns (j: nat)
    requires Reconcile.Inv(TraceOf(db)) && i < |db.calls.calls| && db.calls.calls[i].reconciled
    ensures j < |db.calls.calls| && !db.calls.calls[j].reconciled
    ensures Reconcile.SameUsage(db.calls.calls[i], db.calls.calls[j])
    ensures Reconcile.Reaches(SpansOf(db.ledger.events), db.calls.calls[i].rawEventId, db.calls.calls[j].rawEventId)
  {
    hide SpansOf;
    hide Reconcile.SameUsage;
    hide Reconcile.Reaches;
    var spans, calls := SpansOf(db.ledger.events), db.calls.calls;
    j :| j < |calls| && Reconcile.StandsFor(spans, calls[i], calls[j]);
  }

  lemma PathOfRows(events: seq<RawLedger.RawEvent>, above: string, below: string)
    returns (path: seq<RawLedger.RawEvent>)
    requires LedgerRuns.IdsDiffer(events) && Reconcile.Reaches(SpansOf(events), above, below)
    ensures Descends(events, path, above, below)
  {
    hide SpansOf;
    hide LedgerRuns.IdsDiffer;
    hide Reconcile.Reaches;
    var spans := SpansOf(events);
    Reconcile.ReachesIsSpanPath(spans, above, below);
    var p: seq<string> :| && |p| >= 2 && p[0] == above && p[|p| - 1] == below
      && (forall k :: 0 <= k < |p| ==> p[k] in spans)
      && spans[above].trace != "" && spans[above].span != ""
      && forall k :: 0 <= k < |p| - 1 ==>
           spans[p[k + 1]].trace == spans[p[k]].trace && spans[p[k + 1]].parent == spans[p[k]].span;
    path := RowsOfPath(events, p);
  }
}
