/** The store as an object: its tables are fields, its operations change them, and
    each is proved against the function that specifies it
    (internal/storage/sqlite/store.go). */
module Store {
  import opened Basics
  import opened Text
  import opened AuditChain
  import opened Calls
  import Allocations
  import AllocationVerification
  import Capacity
  import Interactions
  import RawLedger
  import Reconcile
  import Revisions
  import opened StoreRuns
  import Usage
  import UsageTotals

  // What a caller is told of a request.
  predicate Answers(r: Result<Revisions.Revision>, decision: Allocations.Outcome) {
    match decision
    case Appended(revision) => r == Ok(revision)
    case Existing(revision) => r == Ok(revision)
    case Refused(_) => r.Err?
  }

  // A report: grouped rows and their cost, the total tokens, and the measurements.
  datatype Report = Report(sums: Usage.Sums, tokens: Int64, measurements: map<string, Usage.Summary>)

  // The groups, the cost and the measurements sum the shares the filter keeps; the
  // tokens are those of all calls, or of the shares of one project.
  ghost predicate IsReport(r: Report, window: seq<ModelCall>, t: UsageTotals.Tables, filter: Usage.Filter) {
    var rows := UsageTotals.JoinRows(window, UsageTotals.UsageSplit(t));
    var measured := UsageTotals.JoinRows(window, UsageTotals.MeasuredSplit(t));
    && Usage.Grouped(Usage.KeyOf, Usage.ColumnsOf(r.sums.groups), Usage.Shares(rows, filter))
    && Usage.KeyedByKey(r.sums.groups)
    && r.sums.cost == Usage.Column(Usage.Shares(rows, filter), COST)
    && r.tokens == (if filter.None? then UsageTotals.CallColumn(window, TOTAL)
        else Usage.Column(Usage.Shares(rows, filter), TOTAL))
    && Usage.Grouped(Usage.QualityOf, Usage.SummaryColumns(r.measurements), Usage.Shares(measured, filter))
    && Usage.Counted(r.measurements, measured, filter)
  }

  // Main result on a whole report: in every column its rows and its measurements both add
  // up to the calls it reports on, its cost and its tokens are theirs, and it counts each
  // of them once, under its own quality.
  lemma WholeReportAddsUp(r: Report, window: seq<ModelCall>, t: UsageTotals.Tables, k: nat, quality: string)
    requires IsReport(r, window, t, None) && k < 7
    requires UsageTotals.DistinctIds(window) && UsageTotals.AllCounts(window)
    requires UsageTotals.AllWhole(window, UsageTotals.UsageSplit(t))
    requires UsageTotals.AllWhole(window, UsageTotals.MeasuredSplit(t))
    ensures var rows, measured := Usage.ColumnsOf(r.sums.groups), Usage.SummaryColumns(r.measurements);
            && SetSum(rows.Keys, UsageTotals.ColumnIn(rows, k)) == UsageTotals.CallColumn(window, k)
            && SetSum(measured.Keys, UsageTotals.ColumnIn(measured, k)) == UsageTotals.CallColumn(window, k)
    ensures r.sums.cost as int == UsageTotals.CallColumn(window, COST)
    ensures r.tokens as int == UsageTotals.CallColumn(window, TOTAL)
    ensures Usage.SummaryOf(r.measurements, quality).calls == UsageTotals.CallsOfQuality(window, quality)
    ensures forall key :: key in r.sums.groups ==> Usage.KeyOf(r.sums.groups[key]) == key
  {
    hide Usage.Grouped;
    hide Usage.Shares;
    hide Usage.Column;
    hide Usage.KeyOf;
    hide Usage.QualityOf;
    hide Usage.SummaryOf;
    hide Usage.ColumnsOf;
    hide Usage.SummaryColumns;
    hide Usage.QualityCount;
    hide UsageTotals.JoinRows;
    hide UsageTotals.UsageSplit;
    hide UsageTotals.MeasuredSplit;
    hide UsageTotals.CallColumn;
    hide UsageTotals.ColumnIn;
    hide UsageTotals.AllWhole;
    hide UsageTotals.AllCounts;
    hide UsageTotals.DistinctIds;
    hide SetSum;
    UsageTotals.ReportConserves(Usage.KeyOf, window, UsageTotals.UsageSplit(t), Usage.ColumnsOf(r.sums.groups), k);
    UsageTotals.ReportConserves(Usage.QualityOf, window, UsageTotals.MeasuredSplit(t),
      Usage.SummaryColumns(r.measurements), k);
    UsageTotals.SharesConserve(window, UsageTotals.UsageSplit(t), COST);
    UsageTotals.QualitiesCountCalls(window, UsageTotals.MeasuredSplit(t), quality);
  }

  lemma SharesCount(rows: seq<Usage.JoinRow>, filter: Usage.Filter)
    requires Usage.Accepts(Usage.KeyOf, rows, filter)
    ensures Usage.NonNegativeShares(Usage.Shares(rows, filter))
  {
    Usage.SharesNonNegative(rows, filter);
  }

  // The update: every call that another one covers is flagged.
  method FlagCovered(ghost spans: Reconcile.Spans, below: set<(string, string)>, before: seq<ModelCall>)
    returns (after: seq<ModelCall>)
    requires forall a, d :: (a, d) in below <==> Reconcile.Reaches(spans, a, d)
    ensures after == Reconcile.Reconciled(spans, before)
  {
    hide Reconcile.Reaches;
    after := [];
    for i := 0 to |before|
      invariant |after| == i
      invariant forall k :: 0 <= k < i ==> after[k] == Reconcile.Reconciled(spans, before)[k]
    {
      var covered := false;
      for j := 0 to |before|
        invariant covered <==> exists k :: 0 <= k < j && Reconcile.Covers(spans, before[i], before[k])
      {
        var p, c := before[i], before[j];
        if p.rawEventId != c.rawEventId && (p.rawEventId, c.rawEventId) in below
            && (c.rawEventId, p.rawEventId) !in below
           && Reconcile.SameUsage(p, c) {
          covered := true;
        }
      }
      assert covered <==> Reconcile.Covered(spans, before, before[i]);
      after := after + [before[i].(reconciled := before[i].reconciled || covered)];
    }
  }

  // The total of a window, where no project is asked for.
  method WindowTokens(window: seq<ModelCall>) returns (r: Result<Int64>)
    ensures r.Ok? <==> 0 <= UsageTotals.CallColumn(window, TOTAL) <= MAX_INT64
    ensures r.Ok? ==> r.value as int == UsageTotals.CallColumn(window, TOTAL)
  {
    hide UsageTotals.CallColumn;
    var total := UsageTotals.CallColumn(window, TOTAL);
    if total < 0 || total > MAX_INT64 {
      return Err("existing aggregate tokens are negative; explicit repair is required");
    }
    r := Ok(total);
  }

  // The total of the shares of one project.
  method ShareTokens(groups: map<string, Usage.UsageRow>, ghost rows: seq<Usage.JoinRow>, ghost filter: Usage.Filter)
    returns (r: Result<Int64>)
    requires Usage.Accepts(Usage.KeyOf, rows, filter)
    requires Usage.Grouped(Usage.KeyOf, Usage.ColumnsOf(groups), Usage.Shares(rows, filter))
    ensures r.Ok? <==> Usage.Column(Usage.Shares(rows, filter), TOTAL) <= MAX_INT64
    ensures r.Ok? ==> r.value as int == Usage.Column(Usage.Shares(rows, filter), TOTAL)
  {
    hide *;
    SharesCount(rows, filter);
    r := UsageTotals.SumGroups(groups, Usage.Shares(rows, filter));
  }

  // The report on the rows of a window.
  method ReportOn(window: seq<ModelCall>, t: UsageTotals.Tables, filter: Usage.Filter) returns (r: Result<Report>)
    ensures r.Ok? <==> UsageTotals.Reports(window, t, filter)
    ensures r.Ok? ==> IsReport(r.value, window, t, filter)
  {
    hide Usage.Accepts;
    hide Usage.Grouped;
    hide Usage.Shares;
    hide Usage.Column;
    hide Usage.Counted;
    hide Usage.CostFits;
    hide Usage.KeyedByKey;
    hide UsageTotals.JoinRows;
    hide UsageTotals.UsageSplit;
    hide UsageTotals.MeasuredSplit;
    hide UsageTotals.CallColumn;
    hide Usage.KeyOf;
    hide Usage.QualityOf;
    hide Usage.ColumnsOf;
    hide Usage.SummaryColumns;
    var tokens: Int64 := 0;
    if filter.None? {
      var total := WindowTokens(window);
      if total.Err? {
        return Err(total.reason);
      }
      tokens := total.value;
    }
    var rows := UsageTotals.JoinRows(window, UsageTotals.UsageSplit(t));
    var sums := Usage.SumUsage(rows, filter);
    if sums.Err? {
      return Err(sums.reason);
    }
    if filter.Some? {
      var total := ShareTokens(sums.value.groups, rows, filter);
      if total.Err? {
        return Err(total.reason);
      }
      tokens := total.value;
    }
    var summaries := Usage.SumMeasurements(UsageTotals.JoinRows(window, UsageTotals.MeasuredSplit(t)), filter);
    if summaries.Err? {
      return Err(summaries.reason);
    }
    r := Ok(Report(sums.value, tokens, summaries.value));
  }

  class Store {
    const sha: Sha

    var events: seq<RawLedger.RawEvent>
    var dedup: map<string, RawLedger.Dedup>
    var calls: seq<ModelCall>
    var recordedTokens: Option<Int64>
    var projects: map<string, string>
    var history: seq<Revisions.Revision>
    var projection: map<string, seq<Allocations.Slot>>
    var heads: map<string, Allocations.Head>
    var prompts: Interactions.State

    // Open: an empty database, or the tables a database holds; nothing is cached.
    constructor (sha: Sha, events: seq<RawLedger.RawEvent>, dedup: map<string, RawLedger.Dedup>, calls: seq<ModelCall>,
                 books: Allocations.Books, prompts: Interactions.State)
      ensures this.sha == sha
      ensures View() == Db(RawLedger.Ledger(events, dedup), Capacity.State(calls, None),
              books.(calls := SessionsOf(calls)), prompts)
    {
      this.sha, this.events, this.dedup, this.calls, recordedTokens := sha, events, dedup, calls, None;
      projects, history, projection, heads := books.projects, books.history, books.projection, books.heads;
      this.prompts := prompts;
    }

    // ---- what the specifications speak of ------------------------------------------

    function LedgerView(): RawLedger.Ledger
      reads `events, `dedup
    {
      RawLedger.Ledger(events, dedup)
    }

    function CallView(): Capacity.State
      reads `calls, `recordedTokens
    {
      Capacity.State(calls, recordedTokens)
    }

    function BooksView(): Allocations.Books
      reads `projects, `calls, `history, `projection, `heads
    {
      Allocations.Books(projects, SessionsOf(calls), history, projection, heads)
    }

    function View(): Db
      reads `events, `dedup, `calls, `recordedTokens, `projects, `history, `projection, `heads, `prompts
    {
      Db(LedgerView(), CallView(), BooksView(), prompts)
    }

    // ---- raw events ----------------------------------------------------------------

    // AppendRawEvent.
    method AppendRawEvent(input: RawLedger.RawInput, env: RawLedger.Env) returns (r: RawLedger.AppendResult)
      modifies `events, `dedup
      ensures r == RawLedger.AppendOutcome(sha, old(LedgerView()), input, env)
      ensures View() == StoreRuns.AppendEvent(sha, old(View()), input, env)
    {
      hide RawLedger.Identity;
      hide RawLedger.MaxSequence;
      hide RawLedger.EventFor;
      hide RawLedger.HasId;
      if !RawLedger.Acceptable(input) {
        return RawLedger.Failed;
      }
      var identity := RawLedger.Identity(sha, input);
      if identity in dedup {
        var existing := dedup[identity];
        dedup := dedup[identity := existing.(lastReceived := env.now, suppressions := existing.suppressions + 1)];
        return RawLedger.Suppressed(existing.eventId);
      }
      var sequence := RawLedger.MaxSequence(events) + 1;
      if RawLedger.Stale(input, sequence) {
        return RawLedger.Failed;
      }
      if !env.keysResolve || RawLedger.HasId(events, env.id) {
        return RawLedger.Failed;
      }
      dedup := dedup[identity := RawLedger.Dedup(env.id, input.body.source, env.now, env.now, 0)];
      events := events + [RawLedger.EventFor(sha, events, input, env)];
      r := RawLedger.Accepted(env.id, sequence);
    }

    // VerifyLedger: the events of a session, or all of them, then the allocations.
    // `rows` and `headed` are the allocation rows and heads its queries list.
    method VerifyLedger(session: string, rows: seq<Revisions.Revision>, headed: seq<string>) returns (r: Result<()>)
      requires Allocations.Listing(BooksView(), session, rows)
      requires AllocationVerification.HeadsListed(BooksView(), session, headed)
      ensures r.Ok? <==>
                && RawLedger.LedgerVerifies(sha, events, session)
                && Allocations.AllocationsVerify(sha, BooksView(), session)
    {
      hide RawLedger.RowsVerify;
      hide Allocations.Listing;
      hide Allocations.AllocationsVerify;
      hide AllocationVerification.HeadsListed;
      var listed := if session == "" then events else RawLedger.OfSession(events, session);
      r := RawLedger.VerifyRows(sha, listed, session == "");
      if r.Err? {
        return;
      }
      r := AllocationVerification.VerifyAllocationRevisionChain(sha, BooksView(), session, rows, headed);
    }

    // ---- model calls ---------------------------------------------------------------

    // nextUsageTotal.
    method NextUsageTotal(total: Int64) returns (r: Result<Int64>)
      modifies `recordedTokens
      ensures var cached := Capacity.CachedTotal(old(CallView()));
              && (cached.None? ==> r.Err? && recordedTokens == old(recordedTokens))
              && (cached.Some? ==> recordedTokens == cached && r == AddUsageCount(cached.value, total))
    {
      if recordedTokens.None? {
        var recorded := TotalTokens(calls);
        if recorded > MAX_INT64 {
          return Err("validate existing aggregate token capacity");
        }
        if recorded < 0 {
          return Err("existing aggregate tokens are negative; explicit repair is required");
        }
        recordedTokens := Some(recorded);
      }
      r := AddUsageCount(recordedTokens.value, total);
    }

    // The history row, the replaced projection and the head.
    method CommitRevision(revision: Revisions.Revision)
      modifies `history, `projection, `heads
      ensures BooksView() == Allocations.Committed(old(BooksView()), revision)
    {
      history := history + [revision];
      projection := projection[revision.call := Allocations.SlotsOf(revision.entries)];
      heads := heads[revision.call := Allocations.Head(revision.id, revision.hash)];
    }

    // The new row, its direct allocation and the new cached total.
    method InsertCall(row: ModelCall, upstream: string, interaction: string, total: Int64, project: string,
                      revisionId: string, createdAt: string)
      requires !Capacity.HasId(calls, row.id) && (project != "" ==> project in projects)
      modifies `calls, `recordedTokens, `history, `projection, `heads, `prompts
      ensures View() ==
              Db(old(LedgerView()), Capacity.State(old(calls) + [row], Some(total)),
                 Allocations.RecordCall(sha, old(BooksView()), row.id, row.session, project, revisionId, createdAt),
                 old(prompts).(calls := old(prompts).calls
                     + [Interactions.Child(row.rawEventId, row.session, upstream, interaction)]))
    {
      hide Allocations.NewRevision;
      hide Allocations.SlotsOf;
      hide SessionsOf;
      SessionsKeys(calls, row.id);
      SessionsNext(calls, row);
      calls := calls + [row];
      prompts := prompts.(calls := prompts.calls + [Interactions.Child(row.rawEventId, row.session, upstream,
          interaction)]);
      if project != "" {
        var direct := Allocations.NewRevision(sha, history, Allocations.DirectRequest(row.id, project), revisionId,
            createdAt);
        CommitRevision(direct);
      }
      recordedTokens := Some(total);
    }

    // RecordModelCall: the call under the interaction found for it and, for a project,
    // its first allocation. The ids and the time are drawn outside; `keysResolve`
    // speaks of the row's other keys.
    method RecordModelCall(i: CallInput, id: string, keysResolve: bool, upstream: string, interaction: string,
                           revisionId: string, createdAt: string)
      returns (r: Result<string>)
      modifies `calls, `recordedTokens, `history, `projection, `heads, `prompts
      ensures View() == StoreRuns.RecordCall(sha, old(View()), i, id, keysResolve, upstream, interaction, revisionId,
              createdAt)
      ensures r.Err? ==> calls == old(calls)
      ensures r.Ok? && calls == old(calls) ==>
                HasCallFor(old(calls), i.rawEventId) && r.value == CallFor(old(calls), i.rawEventId).id
      ensures r.Ok? && calls != old(calls) ==> r.value == id
    {
      hide Allocations.RecordCall;
      hide Capacity.BlankModel;
      hide Capacity.HasId;
      hide HasCallFor;
      hide CallFor;
      hide TotalTokens;
      hide MetricsStorable;
      hide CallTotal;
      hide TrimSpace;
      hide Row;
      hide SessionsOf;
      var total := CallTotal(i);
      if total.None? {
        return Err("model call total");
      }
      if Capacity.BlankModel(i) {
        return Err("model call provider and model id are required");
      }
      if i.rawEventId != "" && HasCallFor(calls, i.rawEventId) {
        return Ok(CallFor(calls, i.rawEventId).id);
      }
      var next := NextUsageTotal(total.value);
      if next.Err? {
        return Err(next.reason);
      }
      if !keysResolve || (i.project != "" && i.project !in projects) || Capacity.HasId(calls, id) {
        return Err("insert model call");
      }
      if !MetricsStorable(i.metrics) {
        return Err("metric observations require a supported name, value, source, raw key, and confidence");
      }
      RowNames(i, id, total.value);
      InsertCall(Row(i, id, total.value), upstream, interaction, next.value, i.project, revisionId, createdAt);
      r := Ok(id);
    }

    // ReconcileOTLPUsage: the ancestry is computed once, then every covered call is
    // flagged. Nothing clears a flag.
    method ReconcileOTLPUsage(rawEventId: string)
      modifies `calls
      ensures View() == StoreRuns.ReconcileUsage(old(View()), rawEventId)
    {
      hide SpansOf;
      hide SessionsOf;
      hide Reconcile.Reaches;
      hide Reconcile.Reconciled;
      hide FlagsApart;
      if rawEventId == "" {
        return;
      }
      var below := Reconcile.Ancestry(SpansOf(events));
      var flagged := FlagCovered(SpansOf(events), below, calls);
      ReconciledFlags(SpansOf(events), calls);
      FlagsApartTotals(calls, flagged);
      calls := flagged;
    }

    // ---- allocations ---------------------------------------------------------------

    method AddProject(project: string, slug: string)
      modifies `projects
      ensures View() == StoreRuns.Allocate(sha, old(View()), Allocations.AddProject(project, slug))
    {
      if project !in projects {
        projects := projects[project := slug];
      }
    }

    // The checks of AppendAllocationRevision: the revision that already answers the
    // request, none if it may be appended, or why it is refused.
    method ReviewRequest(req: Allocations.Request, ghost id: string, ghost createdAt: string)
      returns (r: Result<Option<Revisions.Revision>>)
      ensures match Allocations.Decide(sha, BooksView(), req, id, createdAt)
              case Appended(_) => r == Ok(None)
              case Existing(revision) => r == Ok(Some(revision))
              case Refused(_) => r.Err?
    {
      hide Allocations.NewRevision;
      hide Allocations.SameShares;
      hide Allocations.Sorted;
      hide Allocations.Whole;
      hide Allocations.Of;
      hide Allocations.ByKey;
      hide Allocations.ProjectsKnown;
      hide SessionsOf;
      hide TrimSpace;
      if TrimSpace(req.call) == "" {
        return Err("only model_call allocations with a subject id are supported");
      }
      if TrimSpace(req.key) == "" {
        return Err("allocation idempotency key is required");
      }
      var valid := Allocations.ValidateAllocations(req.shares);
      if valid.Err? {
        return Err(valid.reason);
      }
      var mine := Allocations.Of(history, req.call);
      var existing := Allocations.ByKey(mine, req.key);
      if existing.Some? {
        var shares := Allocations.SharesOf(Allocations.Sorted(projects, existing.value.entries));
        if req.requireUnallocated && !Allocations.SameShares(shares, req.shares) {
          return Err("allocation idempotency key already belongs to a different assignment");
        }
        return Ok(existing);
      }
      if req.call !in SessionsOf(calls) {
        return Err("model call not found");
      }
      if req.requireUnallocated && mine != [] {
        return Err("model call already has allocations; use a split to replace them");
      }
      if !Allocations.ProjectsKnown(projects, req.shares) {
        return Err("append allocation revision");
      }
      r := Ok(None);
    }

    // AppendAllocationRevision: the history rows, the replaced projection and the
    // head, in one transaction.
    method AppendAllocationRevision(req: Allocations.Request, id: string, createdAt: string)
        returns (r: Result<Revisions.Revision>)
      modifies `history, `projection, `heads
      ensures View() == StoreRuns.Allocate(sha, old(View()), Allocations.AppendOp(req, id, createdAt))
      ensures Answers(r, Allocations.Decide(sha, old(BooksView()), req, id, createdAt))
    {
      hide Allocations.NewRevision;
      hide Allocations.SameShares;
      hide Allocations.Sorted;
      hide Allocations.Whole;
      hide Allocations.Of;
      hide Allocations.ByKey;
      hide Allocations.ProjectsKnown;
      hide Allocations.Committed;
      hide Allocations.RecordCall;
      hide Allocations.RevertRequest;
      hide Allocations.Rebuilt;
      hide SessionsOf;
      hide TrimSpace;
      var review := ReviewRequest(req, id, createdAt);
      if review.Err? {
        return Err(review.reason);
      }
      if review.value.Some? {
        return Ok(review.value.value);
      }
      var revision := Allocations.NewRevision(sha, history, req, id, createdAt);
      CommitRevision(revision);
      r := Ok(revision);
    }

    method RepairModelCallAllocation(call: string, project: string, key: string, id: string, createdAt: string)
      returns (r: Result<Revisions.Revision>)
      modifies `history, `projection, `heads
      ensures View() == StoreRuns.Allocate(sha, old(View()), Allocations.RepairOp(call, project, key, id, createdAt))
      ensures if TrimSpace(project) == "" then r.Err?
              else Answers(r, Allocations.Decide(sha, old(BooksView()), Allocations.RepairRequest(call, project, key),
                  id, createdAt))
    {
      hide Allocations.Append;
      hide Allocations.Decide;
      hide TrimSpace;
      if TrimSpace(project) == "" {
        return Err("repair project id is required");
      }
      r := AppendAllocationRevision(Allocations.RepairRequest(call, project, key), id, createdAt);
    }

    method AssignUnattributedModelCall(call: string, project: string, id: string, createdAt: string)
      returns (r: Result<Revisions.Revision>)
      modifies `history, `projection, `heads
      ensures View() == StoreRuns.Allocate(sha, old(View()), Allocations.AssignOp(call, project, id, createdAt))
      ensures if TrimSpace(call) == "" || TrimSpace(project) == "" then r.Err?
              else Answers(r, Allocations.Decide(sha, old(BooksView()), Allocations.AssignRequest(call, project), id,
                  createdAt))
    {
      hide Allocations.Append;
      hide Allocations.Decide;
      hide TrimSpace;
      if TrimSpace(call) == "" || TrimSpace(project) == "" {
        return Err("model call id and project id are required");
      }
      r := AppendAllocationRevision(Allocations.AssignRequest(call, project), id, createdAt);
    }

    method RevertAllocationRevision(revisionId: string, key: string, reason: string, id: string, createdAt: string)
      returns (r: Result<Revisions.Revision>)
      modifies `history, `projection, `heads
      ensures View() == StoreRuns.Allocate(sha, old(View()),
              Allocations.RevertOp(revisionId, key, reason, id, createdAt))
      ensures match Allocations.RevertRequest(old(BooksView()), revisionId, key, reason)
              case None => r.Err?
              case Some(req) => Answers(r, Allocations.Decide(sha, old(BooksView()), req, id, createdAt))
    {
      hide Allocations.Append;
      hide Allocations.Decide;
      if TrimSpace(revisionId) == "" || TrimSpace(reason) == "" {
        return Err("revision id and reason are required");
      }
      var revision := Allocations.ById(history, revisionId);
      if revision.None? {
        return Err("no such revision");
      }
      if revision.value.parent == "" {
        return Err("cannot revert the first allocation revision");
      }
      var parent := Allocations.ById(history, revision.value.parent);
      var entries := if parent.Some? then parent.value.entries else [];
      var shares := Allocations.SharesOf(Allocations.Sorted(projects, entries));
      r := AppendAllocationRevision(
        Allocations.Request(revision.value.call, shares, key, "", "revert", reason, "revert", false), id, createdAt);
    }

    // RebuildAllocationProjection: everything is deleted, then every call with a
    // history gets the entries of its last revision, in the order they are read.
    method RebuildAllocationProjection()
      modifies `projection
      ensures View() == StoreRuns.Allocate(sha, old(View()), Allocations.RebuildOp)
    {
      hide Allocations.Sorted;
      hide Allocations.SlotsOf;
      hide Allocations.LastEntries;
      hide Allocations.Append;
      hide Allocations.RecordCall;
      hide Allocations.RevertRequest;
      hide SessionsOf;
      var all := set r | r in history :: r.call;
      var left := all;
      projection := map[];
      while left != {}
        invariant left <= all && projection.Keys == all - left
        invariant forall call :: call in projection ==>
                    projection[call] == Allocations.SlotsOf(Allocations.Sorted(projects,
                        Allocations.LastEntries(history, call)))
      {
        var call :| call in left;
        left := left - {call};
        projection := projection[call := Allocations.SlotsOf(Allocations.Sorted(projects,
            Allocations.LastEntries(history, call)))];
      }
      assert projection == Allocations.Rebuilt(old(BooksView()));
    }

    // ---- interactions --------------------------------------------------------------

    // RecordInteraction, with the backfill of model calls and then of tool calls.
    method RecordInteraction(source: string, session: string, upstream: string, id: string, accepted: bool)
      returns (r: Option<string>, created: bool)
      requires id != "" && !Interactions.HasInteractionId(prompts.interactions, id)
      modifies `prompts
      ensures View() ==
              StoreRuns.Deliver(old(View()), Interactions.Deliver(source, session, upstream, id, accepted,
                  Interactions.Finished))
      ensures r.Some? <==> accepted && TrimSpace(source) != "" && TrimSpace(upstream) != ""
      ensures r.Some? ==>
                var existing := Interactions.ByUpstream(old(prompts).interactions, source, session, upstream);
                created == existing.None? && r.value == if existing.Some? then existing.value.id else id
    {
      hide Interactions.Named;
      hide Interactions.ByUpstream;
      hide Interactions.Backfilled;
      hide TrimSpace;
      created := false;
      if !accepted || TrimSpace(source) == "" || TrimSpace(upstream) == "" {
        return None, false;
      }
      var existing := Interactions.ByUpstream(prompts.interactions, source, session, upstream);
      var root := id;
      if existing.Some? {
        root := existing.value.id;
      } else {
        created := true;
        prompts := prompts.(interactions := prompts.interactions
            + [Interactions.Interaction(id, source, session, upstream)]);
      }
      if session != "" && upstream != "" {
        prompts := prompts.(calls := Interactions.Backfilled(prompts.calls, root, session, upstream));
        if |Interactions.Named(prompts.interactions, session, upstream)| == 1 {
          prompts := prompts.(tools := Interactions.Backfilled(prompts.tools, root, session, upstream));
        }
      }
      prompts := prompts.(cut := prompts.cut - {Interactions.Key(session, upstream)});
      r := Some(root);
    }

    // RecordToolCall, under the interaction found for it. `keysResolve` speaks of the
    // row's keys; an event has at most one tool call.
    method RecordToolCall(event: string, name: string, session: string, upstream: string, interaction: string,
        keysResolve: bool)
      returns (r: Result<bool>)
      modifies `prompts
      ensures var accepted := TrimSpace(event) != "" && TrimSpace(name) != "" && keysResolve;
              && (r.Ok? <==> accepted)
              && (r.Ok? ==> (r.value <==> !Interactions.HasEvent(old(prompts).tools, event)))
              && forall source | interaction == Interactions.Parent(old(prompts).interactions, source, session,
                  upstream) ::
                   View() == StoreRuns.Deliver(old(View()),
                       Interactions.RecordTool(event, source, session, upstream, accepted))
    {
      hide TrimSpace;
      if TrimSpace(event) == "" || TrimSpace(name) == "" {
        return Err("tool raw event id and name are required");
      }
      if !keysResolve {
        return Err("record tool call");
      }
      if Interactions.HasEvent(prompts.tools, event) {
        return Ok(false);
      }
      prompts := prompts.(tools := prompts.tools + [Interactions.Child(event, session, upstream, interaction)]);
      r := Ok(true);
    }

    // ---- the usage report ------------------------------------------------------------

    // Usage over a window, for one project or all of them: the grouped rows and their
    // cost, the total tokens, and the measurements.
    method ReportUsage(from: Option<int>, to: Option<int>, filter: Usage.Filter) returns (r: Result<Report>)
      ensures var t, window := UsageTotals.TablesOf(BooksView()), UsageTotals.Window(calls, from, to);
              && (r.Ok? <==> UsageTotals.Reports(window, t, filter))
              && (r.Ok? ==> IsReport(r.value, window, t, filter))
      ensures r.Ok? && filter.None? ==>
                r.value.tokens as int
                == SetSum(UsageTotals.CountedCalls(calls, from, to), UsageTotals.ColumnAt(calls, TOTAL))
    {
      hide SetSum;
      UsageTotals.WindowSums(calls, from, to, TOTAL);
      r := ReportOn(UsageTotals.Window(calls, from, to), UsageTotals.TablesOf(BooksView()), filter);
    }
  }
}
