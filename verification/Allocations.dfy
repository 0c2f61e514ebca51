/** Allocation history and its projection: immutable revisions, idempotency keys,
    revert, rebuild, and the verification of all of them
    (internal/storage/sqlite/store.go). */
module Allocations {
  import opened Basics
  import opened Sorting
  import opened Text
  import opened AuditChain
  import opened Revisions

  datatype Share = Share(project: string, points: int)

  datatype Request = Request(
    call: string, shares: seq<Share>, key: string, author: string, source: string, reason: string,
    origin: string, requireUnallocated: bool)

  // One usage_allocations row of a call.
  datatype Slot = Slot(ordinal: int, entry: Entry)

  datatype Head = Head(revisionId: string, hash: string)

  // Slugs by project id, sessions by call id, and the three allocation tables.
  // The history lists the revisions of a call by number.
  datatype Books = Books(
    projects: map<string, string>, calls: map<string, string>,
    history: seq<Revision>, projection: map<string, seq<Slot>>, heads: map<string, Head>)

  const EMPTY := Books(map[], map[], [], map[], map[])

  datatype Outcome = Appended(revision: Revision) | Existing(revision: Revision) | Refused(reason: string)

  // ---- shares ------------------------------------------------------------------

  function Total(shares: seq<Share>): int {
    if shares == [] then 0 else Total(shares[..|shares| - 1]) + shares[|shares| - 1].points
  }

  predicate InRange(shares: seq<Share>) {
    forall k :: 0 <= k < |shares| ==> 0 <= shares[k].points <= WHOLE
  }

  // What an allocation must be: some shares, each part of a whole, that add up to it.
  predicate Whole(shares: seq<Share>) {
    shares != [] && InRange(shares) && Total(shares) == WHOLE
  }

  // ValidateAllocations.
  method ValidateAllocations(shares: seq<Share>) returns (r: Result<()>)
    ensures r.Ok? <==> Whole(shares)
  {
    if |shares| == 0 {
      return Err("at least one allocation is required");
    }
    var total := 0;
    for i := 0 to |shares|
      invariant total == Total(shares[..i])
      invariant InRange(shares[..i])
    {
      assert shares[..i + 1][..i] == shares[..i];
      if shares[i].points < 0 || shares[i].points > WHOLE {
        return Err("allocation basis points must be between 0 and 10000");
      }
      total := total + shares[i].points;
    }
    assert shares[..|shares|] == shares;
    if total != WHOLE {
      return Err("allocation basis points total is not 10000");
    }
    r := Ok(());
  }

  function ShareOf(e: Entry): Share {
    Share(e.project, e.points)
  }

  function SharesOf(entries: seq<Entry>): seq<Share> {
    Image(ShareOf, entries)
  }

  function EntriesOf(shares: seq<Share>, origin: string): (r: seq<Entry>)
    ensures |r| == |shares|
  {
    if shares == [] then []
    else
      var last := shares[|shares| - 1];
      EntriesOf(shares[..|shares| - 1], origin) + [Entry(last.project, last.points, origin, "high")]
  }

  lemma {:induction false} SharesOfEntries(shares: seq<Share>, origin: string)
    ensures SharesOf(EntriesOf(shares, origin)) == shares
    ensures forall e :: e in EntriesOf(shares, origin) ==> e.origin == origin && e.confidence == "high"
  {
    if shares != [] {
      var init := shares[..|shares| - 1];
      SharesOfEntries(init, origin);
      var entries := EntriesOf(shares, origin);
      assert entries[..|entries| - 1] == EntriesOf(init, origin);
    }
  }

  function ShareText(s: Share): string {
    s.project + "|" + Itoa(s.points)
  }

  // sameAllocationInputs: the sorted texts agree.
  predicate SameShares(a: seq<Share>, b: seq<Share>) {
    Sort(StringLe, Image(ShareText, a)) == Sort(StringLe, Image(ShareText, b))
  }

  lemma ShareTextInjective()
    ensures Injective(ShareText)
  {
    forall a, b | ShareText(a) == ShareText(b) ensures a == b {
      hide Itoa;
      ItoaAvoids(a.points, '|');
      ItoaAvoids(b.points, '|');
      assert a.project + ['|'] + Itoa(a.points) == b.project + ['|'] + Itoa(b.points);
      SplitAtLast('|', a.project, Itoa(a.points), b.project, Itoa(b.points));
      ItoaInjective(a.points, b.points);
    }
  }

  // The texts agree exactly when the shares are the same in some order, even for
  // project ids that contain the separator.
  lemma SameSharesExact(a: seq<Share>, b: seq<Share>)
    ensures SameShares(a, b) <==> multiset(a) == multiset(b)
  {
    hide ShareText;
    hide StringLe;
    StringOrder();
    ShareTextInjective();
    SortDependsOnMultiset(StringLe, Image(ShareText, a), Image(ShareText, b));
    ImageKeepsMultisets(ShareText, a, b);
  }

  // ---- reading the history -----------------------------------------------------

  // The revisions of one call.
  function Of(history: seq<Revision>, call: string): seq<Revision> {
    if history == [] then []
    else
      var last := history[|history| - 1];
      Of(history[..|history| - 1], call) + if last.call == call then [last] else []
  }

  lemma OfNext(history: seq<Revision>, r: Revision, call: string)
    ensures Of(history + [r], call) == if r.call == call then Of(history, call) + [r] else Of(history, call)
  {
    assert (history + [r])[..|history|] == history;
    assert Of(history, call) + [] == Of(history, call);
  }

  lemma {:induction false} OfMembers(history: seq<Revision>, call: string)
    ensures forall r :: r in Of(history, call) <==> r in history && r.call == call
  {
    if history != [] {
      var init, last := history[..|history| - 1], history[|history| - 1];
      assert history == init + [last];
      OfMembers(init, call);
    }
  }

  function ById(history: seq<Revision>, id: string): Option<Revision> {
    if history == [] then None
    else if history[0].id == id then Some(history[0])
    else ById(history[1..], id)
  }

  function ByKey(revisions: seq<Revision>, key: string): Option<Revision> {
    if revisions == [] then None
    else if revisions[0].key == key then Some(revisions[0])
    else ByKey(revisions[1..], key)
  }

  function Last(revisions: seq<Revision>): Option<Revision> {
    if revisions == [] then None else Some(revisions[|revisions| - 1])
  }

  // COALESCE(p.slug, '').
  function Slug(projects: map<string, string>, project: string): string {
    if project in projects then projects[project] else ""
  }

  // ORDER BY slug, project, basis points, method, confidence.
  predicate EntryLe(projects: map<string, string>, e: Entry, f: Entry) {
    var s, t := Slug(projects, e.project), Slug(projects, f.project);
    if s != t then StringLe(s, t)
    else if e.project != f.project then StringLe(e.project, f.project)
    else if e.points != f.points then e.points < f.points
    else if e.origin != f.origin then StringLe(e.origin, f.origin)
    else StringLe(e.confidence, f.confidence)
  }

  function EntryOrder(projects: map<string, string>): (Entry, Entry) -> bool {
    (e, f) => EntryLe(projects, e, f)
  }

  lemma EntryOrderTotal(projects: map<string, string>)
    ensures TotalOrder(EntryOrder(projects))
  {
    hide StringLe;
    hide Slug;
    StringOrder();
  }

  // revisionAllocations: the entries of a revision as every reader sees them.
  function Sorted(projects: map<string, string>, entries: seq<Entry>): seq<Entry> {
    Sort(EntryOrder(projects), entries)
  }

  // ---- operations ----------------------------------------------------------------

  function SlotsOf(entries: seq<Entry>): (r: seq<Slot>)
    ensures |r| == |entries|
  {
    if entries == [] then [] else SlotsOf(entries[..|entries| - 1]) + [Slot(|entries| - 1, entries[|entries| - 1])]
  }

  lemma {:induction false} SlotAt(entries: seq<Entry>, k: nat)
    requires k < |entries|
    ensures SlotsOf(entries)[k] == Slot(k, entries[k])
  {
    if k < |entries| - 1 {
      SlotAt(entries[..|entries| - 1], k);
    }
  }

  function NewRevision(sha: Sha, history: seq<Revision>, req: Request, id: string, createdAt: string): Revision {
    var last := Last(Of(history, req.call));
    var number := if last.Some? then last.value.number + 1 else 1;
    var parent := if last.Some? then last.value.id else "";
    var previousHash := if last.Some? then last.value.hash else "";
    var origin := if req.origin == "" then "manual" else req.origin;
    var r := Revision(id, req.call, number, parent, req.key, req.author, req.source, req.reason, createdAt,
                      EntriesOf(req.shares, origin), previousHash, "");
    r.(hash := RevisionHash(sha, r, previousHash))
  }

  predicate ProjectsKnown(projects: map<string, string>, shares: seq<Share>) {
    forall k :: 0 <= k < |shares| ==> shares[k].project in projects
  }

  // What AppendAllocationRevision decides; the id and the time are drawn outside.
  function Decide(sha: Sha, b: Books, req: Request, id: string, createdAt: string): Outcome {
    var mine := Of(b.history, req.call);
    var existing := ByKey(mine, req.key);
    if TrimSpace(req.call) == "" then Refused("only model_call allocations with a subject id are supported")
    else if TrimSpace(req.key) == "" then Refused("allocation idempotency key is required")
    else if !Whole(req.shares) then Refused("allocations must total 10000 basis points")
    else if existing.Some? then
      if req.requireUnallocated && !SameShares(SharesOf(Sorted(b.projects, existing.value.entries)), req.shares)
      then Refused("allocation idempotency key already belongs to a different assignment")
      else Existing(existing.value)
    else if req.call !in b.calls then Refused("model call not found")
    else if req.requireUnallocated && mine != [] then Refused("model call already has allocations")
    else if !ProjectsKnown(b.projects, req.shares) then Refused("append allocation revision")
    else Appended(NewRevision(sha, b.history, req, id, createdAt))
  }

  // The history row, the replaced projection and the head, in one transaction.
  function Committed(b: Books, r: Revision): Books {
    b.(history := b.history + [r],
       projection := b.projection[r.call := SlotsOf(r.entries)],
       heads := b.heads[r.call := Head(r.id, r.hash)])
  }

  function Append(sha: Sha, b: Books, req: Request, id: string, createdAt: string): Books {
    match Decide(sha, b, req, id, createdAt)
    case Appended(r) => Committed(b, r)
    case _ => b
  }

  function DirectRequest(call: string, project: string): Request {
    Request(call, [Share(project, WHOLE)], "direct:" + call, "system", "record_model_call", "initial direct allocation",
            "direct", false)
  }

  // What RecordModelCall adds here: the call and, for a known project, its first
  // revision.
  function RecordCall(sha: Sha, b: Books, call: string, session: string, project: string, id: string,
      createdAt: string): Books {
    var added := b.(calls := b.calls[call := session]);
    if call in b.calls || (project != "" && project !in b.projects) then b
    else if project == "" then added
    else Committed(added, NewRevision(sha, b.history, DirectRequest(call, project), id, createdAt))
  }

  function SplitRequest(call: string, shares: seq<Share>, key: string): Request {
    Request(call, shares, key, "", "split", "replace allocation", "split", false)
  }

  function RepairRequest(call: string, project: string, key: string): Request {
    Request(call, [Share(project, WHOLE)], key, "", "manual", "repair allocation", "manual", false)
  }

  function AssignRequest(call: string, project: string): Request {
    Request(call, [Share(project, WHOLE)], "assign:" + call, "", "manual",
            "assign unattributed allocation", "manual", true)
  }

  // The request RevertAllocationRevision appends: the shares of the parent, as
  // they are read back.
  function RevertRequest(b: Books, revisionId: string, key: string, reason: string): Option<Request> {
    if TrimSpace(revisionId) == "" || TrimSpace(reason) == "" then None
    else
      match ById(b.history, revisionId)
      case None => None
      case Some(r) =>
        if r.parent == "" then None
        else
          var entries := match ById(b.history, r.parent) case None => [] case Some(p) => p.entries;
          Some(Request(r.call, SharesOf(Sorted(b.projects, entries)), key, "", "revert", reason, "revert", false))
  }

  // RebuildAllocationProjection: every call's slots from its last revision.
  function Rebuilt(b: Books): map<string, seq<Slot>> {
    map call | call in (set r | r in b.history :: r.call) :: SlotsOf(Sorted(b.projects, LastEntries(b.history, call)))
  }

  function LastEntries(history: seq<Revision>, call: string): seq<Entry> {
    match Last(Of(history, call)) case None => [] case Some(r) => r.entries
  }

  datatype Op =
    | AddProject(project: string, slug: string)
    | NewCall(call: string, session: string, project: string, id: string, createdAt: string)
    | AppendOp(req: Request, id: string, createdAt: string)
    | RepairOp(call: string, project: string, key: string, id: string, createdAt: string)
    | AssignOp(call: string, project: string, id: string, createdAt: string)
    | RevertOp(revisionId: string, key: string, reason: string, id: string, createdAt: string)
    | RebuildOp

  function Step(sha: Sha, b: Books, op: Op): Books {
    match op
    case AddProject(project, slug) => if project in b.projects then b else b.(projects := b.projects[project := slug])
    case NewCall(call, session, project, id, createdAt) => RecordCall(sha, b, call, session, project, id, createdAt)
    case AppendOp(req, id, createdAt) => Append(sha, b, req, id, createdAt)
    case RepairOp(call, project, key, id, createdAt) =>
      if TrimSpace(project) == "" then b else Append(sha, b, RepairRequest(call, project, key), id, createdAt)
    case AssignOp(call, project, id, createdAt) =>
      if TrimSpace(call) == "" || TrimSpace(project) == "" then b
      else Append(sha, b, AssignRequest(call, project), id, createdAt)
    case RevertOp(revisionId, key, reason, id, createdAt) =>
      var req := RevertRequest(b, revisionId, key, reason);
      if req.None? then b else Append(sha, b, req.value, id, createdAt)
    case RebuildOp => b.(projection := Rebuilt(b))
  }

  function Run(sha: Sha, b: Books, ops: seq<Op>): Books {
    if ops == [] then b else Step(sha, Run(sha, b, ops[..|ops| - 1]), ops[|ops| - 1])
  }

  // ---- verification ----------------------------------------------------------------

  // How a revision must continue its call's chain.
  predicate LinksTo(prior: Option<Revision>, r: Revision) {
    && r.hash != ""
    && match prior
       case None => r.number == 1 && r.parent == "" && r.previousHash == ""
       case Some(p) => r.number == p.number + 1 && r.parent == p.id && r.previousHash == p.hash
  }

  predicate ChainIntact(revisions: seq<Revision>) {
    if revisions == [] then true
    else
      var init, last := revisions[..|revisions| - 1], revisions[|revisions| - 1];
      ChainIntact(init) && LinksTo(Last(init), last)
  }

  // A chain's revisions are numbered from 1, and each points at the one before it.
  lemma {:induction false} ChainNumbers(revisions: seq<Revision>, k: nat)
    requires ChainIntact(revisions) && k < |revisions|
    ensures revisions[k].number == k + 1
    ensures k == 0 ==> revisions[k].parent == "" && revisions[k].previousHash == ""
    ensures k > 0 ==> revisions[k].parent == revisions[k - 1].id && revisions[k].previousHash == revisions[k - 1].hash
  {
    var init := revisions[..|revisions| - 1];
    if k < |init| {
      ChainNumbers(init, k);
    } else if k > 0 {
      ChainNumbers(init, k - 1);
    }
  }

  predicate ContentsIntact(sha: Sha, revisions: seq<Revision>) {
    forall k :: 0 <= k < |revisions| ==> revisions[k].hash == RevisionHash(sha, revisions[k], revisions[k].previousHash)
  }

  // No id stands for two different hashes.
  predicate IdsConsistent(rows: seq<Revision>) {
    forall r, q :: r in rows && q in rows && r.id == q.id ==> r.hash == q.hash
  }

  function SlotText(s: Slot): string {
    Itoa(s.ordinal) + "|" + s.entry.project + "|" + Itoa(s.entry.points) + "|" + s.entry.origin + "|"
        + s.entry.confidence
  }

  // The projection compared with a revision: the sorted texts agree.
  predicate ProjectionMatches(projects: map<string, string>, slots: seq<Slot>, entries: seq<Entry>) {
    && |slots| == |entries|
    && Sort(StringLe, Image(SlotText, slots)) == Sort(StringLe, Image(SlotText, SlotsOf(Sorted(projects, entries))))
  }

  function SlotsFor(b: Books, call: string): seq<Slot> {
    if call in b.projection then b.projection[call] else []
  }

  predicate HeadMatches(b: Books, call: string) {
    call in b.heads ==>
      var last := Last(Of(b.history, call));
      last.Some? && b.heads[call] == Head(last.value.id, last.value.hash)
  }

  // The calls a verification covers: all, or those of one session.
  predicate Covers(b: Books, session: string, call: string) {
    session == "" || (call in b.calls && b.calls[call] == session)
  }

  predicate CallVerifies(sha: Sha, b: Books, call: string) {
    var mine := Of(b.history, call);
    && ChainIntact(mine) && ContentsIntact(sha, mine) && HeadMatches(b, call)
    && (mine != [] ==> ProjectionMatches(b.projects, SlotsFor(b, call), mine[|mine| - 1].entries))
  }

  // The rows a verification reads: the covered calls' revisions by number.
  ghost predicate Listing(b: Books, session: string, rows: seq<Revision>) {
    forall call :: Of(rows, call) == if Covers(b, session, call) then Of(b.history, call) else []
  }

  predicate CoveredIdsConsistent(b: Books, session: string) {
    forall r, q :: r in b.history && q in b.history ==>
      (Covers(b, session, r.call) && Covers(b, session, q.call) && r.id == q.id ==> r.hash == q.hash)
  }

  // What verifyAllocationRevisionChain accepts.
  ghost predicate AllocationsVerify(sha: Sha, b: Books, session: string) {
    && CoveredIdsConsistent(b, session)
    && forall call :: Covers(b, session, call) ==> CallVerifies(sha, b, call)
  }
}
