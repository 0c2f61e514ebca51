/** What every run of allocation operations keeps, and when the projection passes
    verification. */
module AllocationRuns {
  import opened Basics
  import opened Sorting
  import opened Text
  import opened AuditChain
  import opened Revisions
  import opened Allocations

  // ---- what is kept -----------------------------------------------------------------

  function EntryIn(s: Slot): Entry {
    s.entry
  }

  function EntriesIn(slots: seq<Slot>): seq<Entry> {
    Image(EntryIn, slots)
  }

  // The slots hold these entries in some order, under the ordinals 0, 1, 2 ...
  predicate Projected(slots: seq<Slot>, entries: seq<Entry>) {
    slots == SlotsOf(EntriesIn(slots)) && multiset(EntriesIn(slots)) == multiset(entries)
  }

  predicate EntryOk(projects: map<string, string>, e: Entry) {
    e.project in projects && e.confidence == "high"
  }

  // A revision allocates a whole call to known projects, under its own hash.
  predicate RevisionOk(sha: Sha, projects: map<string, string>, r: Revision) {
    && r.hash == RevisionHash(sha, r, r.previousHash)
    && Whole(SharesOf(r.entries))
    && forall k :: 0 <= k < |r.entries| ==> EntryOk(projects, r.entries[k])
  }

  predicate RevisionsOk(sha: Sha, projects: map<string, string>, revisions: seq<Revision>) {
    forall k :: 0 <= k < |revisions| ==> RevisionOk(sha, projects, revisions[k])
  }

  predicate KeysDistinct(revisions: seq<Revision>) {
    forall i, j :: 0 <= i < j < |revisions| ==> revisions[i].key != revisions[j].key
  }

  predicate IdsUnique(history: seq<Revision>) {
    && (forall i, j :: 0 <= i < j < |history| ==> history[i].id != history[j].id)
    && (forall k :: 0 <= k < |history| ==> history[k].id != "")
  }

  // One call: its revisions are linked 1..n, and its head and projection are those
  // of the last one.
  predicate CallKept(sha: Sha, b: Books, call: string) {
    var mine := Of(b.history, call);
    && ChainIntact(mine) && RevisionsOk(sha, b.projects, mine) && KeysDistinct(mine)
    && (call in b.projection <==> mine != []) && (call in b.heads <==> mine != [])
    && (mine != [] ==>
        var last := mine[|mine| - 1];
        && call in b.calls && b.heads[call] == Head(last.id, last.hash)
        && Projected(b.projection[call], last.entries))
  }

  ghost predicate Kept(sha: Sha, b: Books) {
    IdsUnique(b.history) && forall call :: CallKept(sha, b, call)
  }

  // ---- chains -------------------------------------------------------------------------

  lemma ChainIntactNext(revisions: seq<Revision>, r: Revision)
    ensures ChainIntact(revisions + [r]) <==> ChainIntact(revisions) && LinksTo(Last(revisions), r)
  {
    assert (revisions + [r])[..|revisions|] == revisions;
  }

  // ---- slots --------------------------------------------------------------------------

  lemma {:induction false} SlotsRoundTrip(entries: seq<Entry>)
    ensures EntriesIn(SlotsOf(entries)) == entries
  {
    if entries != [] {
      var slots := SlotsOf(entries);
      assert slots[..|slots| - 1] == SlotsOf(entries[..|entries| - 1]);
      SlotsRoundTrip(entries[..|entries| - 1]);
    }
  }

  lemma SlotsProjected(slots: seq<Entry>, entries: seq<Entry>)
    requires multiset(slots) == multiset(entries)
    ensures Projected(SlotsOf(slots), entries)
  {
    SlotsRoundTrip(slots);
  }

  // ---- one recorded revision ------------------------------------------------------------

  lemma NewRevisionFits(sha: Sha, history: seq<Revision>, req: Request, id: string, createdAt: string)
    requires Digesting(sha)
    ensures var r := NewRevision(sha, history, req, id, createdAt);
            && r.call == req.call && r.id == id && r.key == req.key && r.reason == req.reason && r.source == req.source
            && LinksTo(Last(Of(history, req.call)), r)
            && r.hash == RevisionHash(sha, r, r.previousHash)
            && r.entries == EntriesOf(req.shares, if req.origin == "" then "manual" else req.origin)
  {
    hide EntriesText;
    hide LengthSafeFields;
    hide Of;
    hide Itoa;
  }

  lemma {:induction false} EntriesOfShares(shares: seq<Share>, origin: string, k: nat)
    requires k < |shares|
    ensures EntriesOf(shares, origin)[k] == Entry(shares[k].project, shares[k].points, origin, "high")
  {
    if k < |shares| - 1 {
      EntriesOfShares(shares[..|shares| - 1], origin, k);
    }
  }

  lemma NewRevisionOk(sha: Sha, projects: map<string, string>, history: seq<Revision>, req: Request, id: string,
      createdAt: string)
    requires Digesting(sha) && Whole(req.shares) && ProjectsKnown(projects, req.shares)
    ensures RevisionOk(sha, projects, NewRevision(sha, history, req, id, createdAt))
  {
    hide NewRevision;
    hide RevisionHash;
    hide Total;
    NewRevisionFits(sha, history, req, id, createdAt);
    var r := NewRevision(sha, history, req, id, createdAt);
    var origin := if req.origin == "" then "manual" else req.origin;
    SharesOfEntries(req.shares, origin);
    forall k | 0 <= k < |r.entries| ensures EntryOk(projects, r.entries[k]) {
      EntriesOfShares(req.shares, origin, k);
    }
  }

  lemma {:induction false} ByKeyFinds(revisions: seq<Revision>, key: string)
    ensures ByKey(revisions, key).None? <==> forall k :: 0 <= k < |revisions| ==> revisions[k].key != key
    ensures ByKey(revisions, key).Some? ==>
              ByKey(revisions, key).value in revisions && ByKey(revisions, key).value.key == key
  {
    if revisions != [] {
      ByKeyFinds(revisions[1..], key);
      assert forall k :: 1 <= k < |revisions| ==> revisions[k] == revisions[1..][k - 1];
      assert forall k :: 0 <= k < |revisions| - 1 ==> revisions[1..][k] == revisions[k + 1];
    }
  }

  // A fresh revision that continues its call's chain under a new key.
  predicate Continues(sha: Sha, b: Books, r: Revision) {
    var mine := Of(b.history, r.call);
    && r.id != "" && ById(b.history, r.id).None? && r.call in b.calls
    && LinksTo(Last(mine), r) && RevisionOk(sha, b.projects, r) && ByKey(mine, r.key).None?
  }

  lemma {:induction false} ByIdFinds(history: seq<Revision>, id: string)
    ensures ById(history, id).None? <==> forall k :: 0 <= k < |history| ==> history[k].id != id
    ensures ById(history, id).Some? ==> ById(history, id).value in history && ById(history, id).value.id == id
  {
    if history != [] {
      ByIdFinds(history[1..], id);
      assert forall k :: 1 <= k < |history| ==> history[k] == history[1..][k - 1];
      assert forall k :: 0 <= k < |history| - 1 ==> history[1..][k] == history[k + 1];
    }
  }

  lemma RevisionsOkNext(sha: Sha, projects: map<string, string>, revisions: seq<Revision>, r: Revision)
    requires RevisionsOk(sha, projects, revisions) && RevisionOk(sha, projects, r)
    ensures RevisionsOk(sha, projects, revisions + [r])
  {
    hide RevisionOk;
  }

  lemma KeysDistinctNext(revisions: seq<Revision>, r: Revision)
    requires KeysDistinct(revisions) && ByKey(revisions, r.key).None?
    ensures KeysDistinct(revisions + [r])
  {
    ByKeyFinds(revisions, r.key);
  }

  lemma CommitKeepsCall(sha: Sha, b: Books, r: Revision, call: string)
    requires Continues(sha, b, r) && CallKept(sha, b, call)
    ensures CallKept(sha, Committed(b, r), call)
  {
    hide RevisionOk;
    hide LinksTo;
    hide Of;
    hide ById;
    hide ByKey;
    hide SlotsOf;
    hide Projected;
    hide ChainIntact;
    hide RevisionsOk;
    hide KeysDistinct;
    OfNext(b.history, r, call);
    if call == r.call {
      ChainIntactNext(Of(b.history, call), r);
      RevisionsOkNext(sha, b.projects, Of(b.history, call), r);
      KeysDistinctNext(Of(b.history, call), r);
      SlotsProjected(r.entries, r.entries);
    }
  }

  lemma CommitKeeps(sha: Sha, b: Books, r: Revision)
    requires Continues(sha, b, r) && Kept(sha, b)
    ensures Kept(sha, Committed(b, r))
  {
    hide CallKept;
    hide Continues;
    forall call ensures CallKept(sha, Committed(b, r), call) {
      CommitKeepsCall(sha, b, r, call);
    }
    assert ById(b.history, r.id).None? && r.id != "" by { ContinuesFresh(sha, b, r); }
    ByIdFinds(b.history, r.id);
  }

  lemma ContinuesFresh(sha: Sha, b: Books, r: Revision)
    requires Continues(sha, b, r)
    ensures ById(b.history, r.id).None? && r.id != ""
  {
  }

  // ---- steps ------------------------------------------------------------------------------

  // A new revision id is not in use; ids are drawn at random.
  predicate FreshId(b: Books, id: string) {
    id != "" && ById(b.history, id).None?
  }

  lemma AppendKeeps(sha: Sha, b: Books, req: Request, id: string, createdAt: string)
    requires Digesting(sha) && Kept(sha, b) && FreshId(b, id)
    ensures Kept(sha, Append(sha, b, req, id, createdAt))
  {
    hide CallKept;
    hide RevisionOk;
    hide LinksTo;
    hide SameShares;
    hide TrimSpace;
    hide Whole;
    hide NewRevision;
    hide IdsUnique;
    hide Of;
    hide ByKey;
    hide ById;
    hide ProjectsKnown;
    if Decide(sha, b, req, id, createdAt).Appended? {
      NewRevisionFits(sha, b.history, req, id, createdAt);
      NewRevisionOk(sha, b.projects, b.history, req, id, createdAt);
      CommitKeeps(sha, b, NewRevision(sha, b.history, req, id, createdAt));
    }
  }

  lemma NewCallKeeps(sha: Sha, b: Books, call: string, session: string, project: string, id: string, createdAt: string)
    requires Digesting(sha) && Kept(sha, b) && FreshId(b, id)
    ensures Kept(sha, RecordCall(sha, b, call, session, project, id, createdAt))
  {
    hide RevisionOk;
    hide LinksTo;
    hide Whole;
    hide NewRevision;
    hide IdsUnique;
    hide Of;
    hide ById;
    hide RevisionsOk;
    hide KeysDistinct;
    hide Projected;
    hide ChainIntact;
    var added := b.(calls := b.calls[call := session]);
    if call !in b.calls {
      assert CallKept(sha, b, call);
      assert Of(b.history, call) == [];
      forall c ensures CallKept(sha, added, c) {
        assert CallKept(sha, b, c);
      }
      if project != "" && project in b.projects {
        DirectRevisionContinues(sha, added, call, project, id, createdAt);
        CommitKeeps(sha, added, NewRevision(sha, b.history, DirectRequest(call, project), id, createdAt));
      }
    }
  }

  lemma WholeShare(project: string)
    ensures Whole([Share(project, WHOLE)])
  {
    assert Total([Share(project, WHOLE)][..0]) == 0;
  }

  lemma DirectRevisionContinues(sha: Sha, b: Books, call: string, project: string, id: string, createdAt: string)
    requires Digesting(sha) && FreshId(b, id) && call in b.calls && Of(b.history, call) == [] && project in b.projects
    ensures Continues(sha, b, NewRevision(sha, b.history, DirectRequest(call, project), id, createdAt))
  {
    hide RevisionOk;
    hide LinksTo;
    hide NewRevision;
    hide Of;
    hide ById;
    hide Whole;
    var req := DirectRequest(call, project);
    WholeShare(project);
    NewRevisionFits(sha, b.history, req, id, createdAt);
    NewRevisionOk(sha, b.projects, b.history, req, id, createdAt);
  }

  lemma AddProjectKeeps(sha: Sha, b: Books, project: string, slug: string)
    requires Kept(sha, b) && project !in b.projects
    ensures Kept(sha, b.(projects := b.projects[project := slug]))
  {
    hide RevisionHash;
    hide Whole;
    hide IdsUnique;
    hide Of;
    hide KeysDistinct;
    hide Projected;
    hide ChainIntact;
    var after := b.(projects := b.projects[project := slug]);
    forall c ensures CallKept(sha, after, c) {
      assert CallKept(sha, b, c);
    }
  }

  // Rebuilding gives every call with a history its last revision, sorted, and no
  // other call anything.
  lemma RebuiltCall(sha: Sha, b: Books, call: string)
    requires CallKept(sha, b, call)
    ensures call in Rebuilt(b) <==> Of(b.history, call) != []
    ensures call in Rebuilt(b) ==> Rebuilt(b)[call] == SlotsOf(Sorted(b.projects, LastEntries(b.history, call)))
  {
    hide CallKept;
    hide SlotsOf;
    hide Sorted;
    OfMembers(b.history, call);
    if Of(b.history, call) != [] {
      assert Of(b.history, call)[0] in b.history;
    }
    if call in Rebuilt(b) {
      var r :| r in b.history && r.call == call;
      assert r in Of(b.history, call);
    }
  }

  lemma SortedMultiset(projects: map<string, string>, entries: seq<Entry>)
    ensures multiset(Sorted(projects, entries)) == multiset(entries) && |Sorted(projects, entries)| == |entries|
  {
    SortMultiset(EntryOrder(projects), entries);
  }

  lemma RebuildKeepsCall(sha: Sha, b: Books, call: string)
    requires CallKept(sha, b, call)
    ensures CallKept(sha, b.(projection := Rebuilt(b)), call)
  {
    hide Rebuilt;
    hide RevisionsOk;
    hide Of;
    hide KeysDistinct;
    hide Projected;
    hide ChainIntact;
    hide SlotsOf;
    hide Sorted;
    RebuiltCall(sha, b, call);
    SortedMultiset(b.projects, LastEntries(b.history, call));
    SlotsProjected(Sorted(b.projects, LastEntries(b.history, call)), LastEntries(b.history, call));
  }

  lemma RebuildKeeps(sha: Sha, b: Books)
    requires Kept(sha, b)
    ensures Kept(sha, b.(projection := Rebuilt(b)))
  {
    hide CallKept;
    hide Rebuilt;
    hide IdsUnique;
    forall call ensures CallKept(sha, b.(projection := Rebuilt(b)), call) {
      RebuildKeepsCall(sha, b, call);
    }
  }

  predicate FreshFor(b: Books, op: Op) {
    match op
    case NewCall(_, _, _, id, _) => FreshId(b, id)
    case AppendOp(_, id, _) => FreshId(b, id)
    case RepairOp(_, _, _, id, _) => FreshId(b, id)
    case AssignOp(_, _, id, _) => FreshId(b, id)
    case RevertOp(_, _, _, id, _) => FreshId(b, id)
    case _ => true
  }

  lemma StepKeeps(sha: Sha, b: Books, op: Op)
    requires Digesting(sha) && Kept(sha, b) && FreshFor(b, op)
    ensures Kept(sha, Step(sha, b, op))
  {
    hide Kept;
    hide Append;
    hide RecordCall;
    hide Rebuilt;
    hide RevertRequest;
    hide FreshId;
    hide TrimSpace;
    match op
    case AddProject(project, slug) =>
      if project !in b.projects {
        AddProjectKeeps(sha, b, project, slug);
      }
    case NewCall(call, session, project, id, createdAt) => NewCallKeeps(sha, b, call, session, project, id, createdAt);
    case AppendOp(req, id, createdAt) => AppendKeeps(sha, b, req, id, createdAt);
    case RepairOp(call, project, key, id, createdAt) => AppendKeeps(sha, b, RepairRequest(call, project, key), id,
        createdAt);
    case AssignOp(call, project, id, createdAt) => AppendKeeps(sha, b, AssignRequest(call, project), id, createdAt);
    case RevertOp(revisionId, key, reason, id, createdAt) =>
      var req := RevertRequest(b, revisionId, key, reason);
      if req.Some? {
        AppendKeeps(sha, b, req.value, id, createdAt);
      }
    case RebuildOp => RebuildKeeps(sha, b);
  }

  ghost predicate FreshRun(sha: Sha, b: Books, ops: seq<Op>) {
    forall k :: 0 <= k < |ops| ==> FreshFor(Run(sha, b, ops[..k]), ops[k])
  }

  lemma {:induction false} RunKeepsFrom(sha: Sha, b: Books, ops: seq<Op>)
    requires Digesting(sha) && Kept(sha, b) && FreshRun(sha, b, ops)
    ensures Kept(sha, Run(sha, b, ops))
  {
    hide Kept;
    hide Step;
    hide FreshFor;
    if ops != [] {
      var init := ops[..|ops| - 1];
      forall k | 0 <= k < |init| ensures FreshFor(Run(sha, b, init[..k]), init[k]) {
        assert init[..k] == ops[..k];
      }
      RunKeepsFrom(sha, b, init);
      StepKeeps(sha, Run(sha, b, init), ops[|ops| - 1]);
    }
  }

  // Main result over runs: however direct recordings, splits, repairs, assignments,
  // reverts, rebuilds and new projects follow each other, every call's revisions
  // are linked 1..n, each allocates exactly the whole, and the head and the
  // projection are those of the last one.
  lemma RunsStayKept(sha: Sha, ops: seq<Op>)
    requires Digesting(sha) && FreshRun(sha, EMPTY, ops)
    ensures Kept(sha, Run(sha, EMPTY, ops))
  {
    RunKeepsFrom(sha, EMPTY, ops);
  }

  // The same, spelled out for one revision of one call.
  lemma KeptRevision(sha: Sha, b: Books, call: string, k: nat)
    requires Kept(sha, b) && k < |Of(b.history, call)|
    ensures var mine := Of(b.history, call);
            && mine[k].number == k + 1
            && mine[k].parent == (if k == 0 then "" else mine[k - 1].id)
            && mine[k].previousHash == (if k == 0 then "" else mine[k - 1].hash)
            && Whole(SharesOf(mine[k].entries))
            && call in b.heads && b.heads[call].revisionId == mine[|mine| - 1].id
            && call in b.projection
            && multiset(EntriesIn(b.projection[call])) == multiset(mine[|mine| - 1].entries)
  {
    hide Whole;
    hide RevisionHash;
    hide Of;
    assert CallKept(sha, b, call);
    ChainNumbers(Of(b.history, call), k);
    assert RevisionOk(sha, b.projects, Of(b.history, call)[k]);
  }

  // ---- idempotency keys --------------------------------------------------------------

  lemma StepGrows(sha: Sha, b: Books, op: Op)
    ensures b.history <= Step(sha, b, op).history
  {
    hide NewRevision;
    hide Rebuilt;
    hide RevertRequest;
    hide TrimSpace;
    hide Whole;
    hide SameShares;
    hide ByKey;
    hide Of;
    hide ProjectsKnown;
  }

  lemma {:induction false} RunGrows(sha: Sha, b: Books, ops: seq<Op>)
    ensures b.history <= Run(sha, b, ops).history
  {
    hide Step;
    if ops != [] {
      RunGrows(sha, b, ops[..|ops| - 1]);
      StepGrows(sha, Run(sha, b, ops[..|ops| - 1]), ops[|ops| - 1]);
    }
  }

  lemma {:induction false} OfPrefix(h: seq<Revision>, later: seq<Revision>, call: string)
    requires h <= later
    ensures Of(h, call) <= Of(later, call)
  {
    if |h| < |later| {
      var init := later[..|later| - 1];
      OfPrefix(h, init, call);
      assert later == init + [later[|later| - 1]];
      OfNext(init, later[|later| - 1], call);
    } else {
      assert h == later;
    }
  }

  lemma {:induction false} ByKeyPrefix(a: seq<Revision>, later: seq<Revision>, key: string)
    requires a <= later && ByKey(a, key).Some?
    ensures ByKey(later, key) == ByKey(a, key)
  {
    if a[0].key != key {
      assert a[1..] <= later[1..];
      ByKeyPrefix(a[1..], later[1..], key);
    }
  }

  lemma {:induction false} ByKeyAppended(a: seq<Revision>, r: Revision)
    requires ByKey(a, r.key).None?
    ensures ByKey(a + [r], r.key) == Some(r)
  {
    if a != [] {
      assert (a + [r])[1..] == a[1..] + [r];
      ByKeyAppended(a[1..], r);
    }
  }

  // History is append-only: no operation edits, moves or removes a revision.
  lemma HistoryOnlyGrows(sha: Sha, b: Books, ops: seq<Op>, call: string)
    ensures Of(b.history, call) <= Of(Run(sha, b, ops).history, call)
  {
    RunGrows(sha, b, ops);
    OfPrefix(b.history, Run(sha, b, ops).history, call);
  }

  lemma SharesReadBack(projects: map<string, string>, entries: seq<Entry>, shares: seq<Share>)
    requires SharesOf(entries) == shares
    ensures multiset(SharesOf(Sorted(projects, entries))) == multiset(shares)
  {
    SortMultiset(EntryOrder(projects), entries);
    ImagePermutes(ShareOf, Sorted(projects, entries), entries);
  }

  // What an existing revision under the key means for a request.
  lemma ExistingDecides(sha: Sha, b: Books, req: Request, r: Revision, id: string, createdAt: string)
    requires TrimSpace(req.call) != "" && TrimSpace(req.key) != "" && Whole(req.shares)
    requires ByKey(Of(b.history, req.call), req.key) == Some(r)
    ensures Append(sha, b, req, id, createdAt) == b
    ensures Decide(sha, b, req, id, createdAt) == Existing(r) <==>
            (req.requireUnallocated ==> multiset(req.shares) == multiset(SharesOf(r.entries)))
  {
    hide TrimSpace;
    hide Whole;
    hide ByKey;
    hide Of;
    hide SameShares;
    hide SharesOf;
    hide Sorted;
    SharesReadBack(b.projects, r.entries, SharesOf(r.entries));
    SameSharesExact(SharesOf(Sorted(b.projects, r.entries)), req.shares);
  }

  // Main result on keys: once a key has appended a revision, any later request
  // under it, after any run of operations, changes nothing; it is answered with
  // that revision, unless it is an assignment of other shares.
  lemma KeyIsSpent(sha: Sha, b: Books, req: Request, id: string, createdAt: string, ops: seq<Op>,
                   again: Request, id2: string, createdAt2: string)
    requires Decide(sha, b, req, id, createdAt).Appended?
    requires again.call == req.call && again.key == req.key && Whole(again.shares)
    ensures var later := Run(sha, Append(sha, b, req, id, createdAt), ops);
            var r := NewRevision(sha, b.history, req, id, createdAt);
            && Append(sha, later, again, id2, createdAt2) == later
            && (Decide(sha, later, again, id2, createdAt2) == Existing(r) <==>
                (again.requireUnallocated ==> multiset(again.shares) == multiset(req.shares)))
  {
    hide Whole;
    hide ByKey;
    hide Of;
    hide SharesOf;
    hide Run;
    hide RevisionHash;
    hide TrimSpace;
    hide SameShares;
    hide ProjectsKnown;
    var after := Append(sha, b, req, id, createdAt);
    var later := Run(sha, after, ops);
    var r := NewRevision(sha, b.history, req, id, createdAt);
    OfNext(b.history, r, req.call);
    ByKeyAppended(Of(b.history, req.call), r);
    HistoryOnlyGrows(sha, after, ops, req.call);
    ByKeyPrefix(Of(after.history, req.call), Of(later.history, req.call), req.key);
    SharesOfEntries(req.shares, if req.origin == "" then "manual" else req.origin);
    ExistingDecides(sha, later, again, r, id2, createdAt2);
  }
}
