/** What each allocation operation does to the tables, column by column
    (internal/storage/sqlite/store.go). */
module AllocationEffects {
  import opened Basics
  import opened Sorting
  import opened Text
  import opened AuditChain
  import opened Revisions
  import opened Allocations
  import opened AllocationRuns

  // ---- the tables ----------------------------------------------------------------------

  // One more revision: the last row of the history, the whole projection of its call
  // in its own order, and its call's head. Nothing else changes.
  predicate Adds(b: Books, after: Books, r: Revision) {
    && after.projects == b.projects && after.history == b.history + [r]
    && after.projection.Keys == b.projection.Keys + {r.call} && after.heads.Keys == b.heads.Keys + {r.call}
    && (forall c :: c in b.projection && c != r.call ==> after.projection[c] == b.projection[c])
    && (forall c :: c in b.heads && c != r.call ==> after.heads[c] == b.heads[c])
    && |after.projection[r.call]| == |r.entries|
    && (forall k :: 0 <= k < |r.entries| ==>
          after.projection[r.call][k].ordinal == k && after.projection[r.call][k].entry == r.entries[k])
    && after.heads[r.call].revisionId == r.id && after.heads[r.call].hash == r.hash
  }

  // The revision a request asks for.
  predicate Fulfils(r: Revision, req: Request, id: string, createdAt: string, origin: string) {
    && r.id == id && r.call == req.call && r.key == req.key && r.createdAt == createdAt
    && r.author == req.author && r.source == req.source && r.reason == req.reason
    && |r.entries| == |req.shares|
    && forall k :: 0 <= k < |req.shares| ==>
         && r.entries[k].project == req.shares[k].project && r.entries[k].points == req.shares[k].points
         && r.entries[k].origin == origin && r.entries[k].confidence == "high"
  }

  // The only share is the whole of a project.
  predicate WholeOf(r: Revision, project: string, origin: string) {
    && |r.entries| == 1 && r.entries[0].project == project && r.entries[0].points == 10000
    && r.entries[0].origin == origin && r.entries[0].confidence == "high"
  }

  lemma CommittedAdds(b: Books, r: Revision)
    ensures Adds(b, Committed(b, r), r) && Committed(b, r).calls == b.calls
  {
    forall k: nat | k < |r.entries| ensures SlotsOf(r.entries)[k] == Slot(k, r.entries[k]) {
      SlotAt(r.entries, k);
    }
  }

  lemma {:induction false} EntriesOfCount(shares: seq<Share>, origin: string)
    ensures |EntriesOf(shares, origin)| == |shares|
  {
    if shares != [] {
      EntriesOfCount(shares[..|shares| - 1], origin);
    }
  }

  lemma NewRevisionFulfils(sha: Sha, history: seq<Revision>, req: Request, id: string, createdAt: string)
    ensures Fulfils(NewRevision(sha, history, req, id, createdAt), req, id, createdAt,
                    if req.origin == "" then "manual" else req.origin)
  {
    hide RevisionHash;
    hide Of;
    var origin := if req.origin == "" then "manual" else req.origin;
    EntriesOfCount(req.shares, origin);
    forall k: nat | k < |req.shares|
      ensures EntriesOf(req.shares, origin)[k] == Entry(req.shares[k].project, req.shares[k].points, origin, "high")
    {
      EntriesOfShares(req.shares, origin, k);
    }
  }

  // ---- which requests are accepted --------------------------------------------------------

  lemma OfNothing(history: seq<Revision>, call: string)
    ensures Of(history, call) == [] <==> forall r :: r in history ==> r.call != call
  {
    OfMembers(history, call);
    hide Of;
    if Of(history, call) != [] {
      assert Of(history, call)[0] in Of(history, call);
    }
  }

  lemma {:induction false} ByKeyNone(revisions: seq<Revision>, key: string)
    ensures ByKey(revisions, key).None? <==> forall r :: r in revisions ==> r.key != key
    ensures ByKey(revisions, key).Some? ==>
              ByKey(revisions, key).value in revisions && ByKey(revisions, key).value.key == key
  {
    if revisions != [] {
      ByKeyNone(revisions[1..], key);
      assert revisions == [revisions[0]] + revisions[1..];
    }
  }

  function Points(shares: seq<Share>): (p: seq<int>)
    ensures |p| == |shares|
  {
    seq(|shares|, k requires 0 <= k < |shares| => shares[k].points)
  }

  lemma {:induction false} TotalIsSum(shares: seq<Share>)
    ensures Total(shares) == Sum(Points(shares))
  {
    if shares != [] {
      var n := |shares| - 1;
      TotalIsSum(shares[..n]);
      assert Points(shares) == Points(shares[..n]) + [shares[n].points];
      SumAppend(Points(shares[..n]), [shares[n].points]);
      assert Sum([shares[n].points]) == shares[n].points;
    }
  }

  // An append adds a revision exactly for a named subject and key, shares that make
  // up the whole among known projects, a key the call has not used, a known call and,
  // where it is asked for, a call without a history.
  lemma AppendsExactly(sha: Sha, b: Books, req: Request, id: string, createdAt: string)
    ensures Decide(sha, b, req, id, createdAt).Appended? <==>
            && TrimSpace(req.call) != "" && TrimSpace(req.key) != ""
            && req.shares != [] && (forall k :: 0 <= k < |req.shares| ==> 0 <= req.shares[k].points <= 10000)
            && Sum(Points(req.shares)) == 10000
            && (forall r :: r in b.history && r.call == req.call ==> r.key != req.key)
            && req.call in b.calls
            && (req.requireUnallocated ==> forall r :: r in b.history ==> r.call != req.call)
            && forall k :: 0 <= k < |req.shares| ==> req.shares[k].project in b.projects
  {
    hide Total;
    hide Of;
    hide ByKey;
    hide TrimSpace;
    hide SameShares;
    hide NewRevision;
    hide Sum;
    TotalIsSum(req.shares);
    OfNothing(b.history, req.call);
    OfMembers(b.history, req.call);
    ByKeyNone(Of(b.history, req.call), req.key);
  }

  // What an append does, and that it does nothing else.
  lemma AppendAdds(sha: Sha, b: Books, req: Request, id: string, createdAt: string)
    ensures var after := Step(sha, b, AppendOp(req, id, createdAt));
            if Decide(sha, b, req, id, createdAt).Appended?
            then |after.history| > 0 && Adds(b, after, after.history[|after.history| - 1]) && after.calls == b.calls
                 && Fulfils(after.history[|after.history| - 1], req, id, createdAt,
                            if req.origin == "" then "manual" else req.origin)
            else after == b
  {
    hide Of;
    hide ByKey;
    hide TrimSpace;
    hide SameShares;
    hide NewRevision;
    hide Committed;
    hide Fulfils;
    hide Adds;
    hide Whole;
    hide ProjectsKnown;
    var r := NewRevision(sha, b.history, req, id, createdAt);
    NewRevisionFulfils(sha, b.history, req, id, createdAt);
    CommittedAdds(b, r);
    LastOfAdded(b, Committed(b, r), r);
  }

  lemma LastOfAdded(b: Books, after: Books, r: Revision)
    requires Adds(b, after, r)
    ensures |after.history| > 0 && after.history[|after.history| - 1] == r
  {
  }

  lemma WholeShareValid(project: string)
    ensures var shares := [Share(project, 10000)];
            Sum(Points(shares)) == 10000
  {
    assert Points([Share(project, 10000)]) == [10000];
    assert Sum([10000]) == 10000;
  }

  // ---- the operations -----------------------------------------------------------------------

  // Main result on assigning: a known call without a history gets one revision, the
  // whole of a known project, under the call's own key; a call with a history, like
  // every other one, keeps everything.
  lemma AssignAdds(sha: Sha, b: Books, call: string, project: string, id: string, createdAt: string)
    ensures var after := Step(sha, b, AssignOp(call, project, id, createdAt));
            if TrimSpace(call) != "" && TrimSpace(project) != "" && call in b.calls && project in b.projects
               && forall r :: r in b.history ==> r.call != call
            then |after.history| > 0 &&
                 var r := after.history[|after.history| - 1];
                 && Adds(b, after, r) && after.calls == b.calls && WholeOf(r, project, "manual")
                 && r.id == id && r.call == call && r.key == "assign:" + call && r.createdAt == createdAt
                 && r.author == "" && r.source == "manual" && r.reason == "assign unattributed allocation"
            else after == b
  {
    hide Append;
    hide Decide;
    hide Adds;
    hide Sum;
    hide TrimSpace;
    hide Points;
    var req := AssignRequest(call, project);
    assert req.shares[0].project == project;
    AppendAdds(sha, b, req, id, createdAt);
    AppendsExactly(sha, b, req, id, createdAt);
    WholeShareValid(project);
    PrefixedKey("assign:", call);
  }

  lemma PrefixedKey(prefix: string, rest: string)
    requires |prefix| > 0 && !IsSpace(prefix[0])
    ensures TrimSpace(prefix + rest) != ""
  {
    NotBlankLeft(prefix + rest);
  }

  lemma NotBlankLeft(s: string)
    requires s != "" && !IsSpace(s[0])
    ensures TrimSpace(s) != ""
  {
    assert TrimLeft(s) == s;
    TrimRightKeeps(s);
  }

  lemma {:induction false} TrimRightKeeps(s: string)
    requires s != "" && !IsSpace(s[0])
    ensures TrimRight(s) != ""
  {
    if |s| > 1 && IsSpace(s[|s| - 1]) {
      TrimRightKeeps(s[..|s| - 1]);
    }
  }

  // Main result on repairing: a known call gets one more revision, the whole of a
  // known project, under a key it has not used; otherwise nothing changes.
  lemma RepairAdds(sha: Sha, b: Books, call: string, project: string, key: string, id: string, createdAt: string)
    ensures var after := Step(sha, b, RepairOp(call, project, key, id, createdAt));
            if TrimSpace(call) != "" && TrimSpace(project) != "" && TrimSpace(key) != ""
               && call in b.calls && project in b.projects
               && forall r :: r in b.history && r.call == call ==> r.key != key
            then |after.history| > 0 &&
                 var r := after.history[|after.history| - 1];
                 && Adds(b, after, r) && after.calls == b.calls && WholeOf(r, project, "manual")
                 && r.id == id && r.call == call && r.key == key && r.createdAt == createdAt
                 && r.author == "" && r.source == "manual" && r.reason == "repair allocation"
            else after == b
  {
    hide Append;
    hide Decide;
    hide Adds;
    hide Sum;
    hide TrimSpace;
    hide Points;
    var req := RepairRequest(call, project, key);
    assert req.shares[0].project == project;
    AppendAdds(sha, b, req, id, createdAt);
    AppendsExactly(sha, b, req, id, createdAt);
    WholeShareValid(project);
  }

  // Main result on new calls: a new call is known under its session from then on and,
  // for a known project, has one revision that gives it the whole.
  lemma NewCallAdds(sha: Sha, b: Books, call: string, session: string, project: string, id: string, createdAt: string)
    ensures var after := Step(sha, b, NewCall(call, session, project, id, createdAt));
            if call in b.calls || (project != "" && project !in b.projects) then after == b
            else
              && after.calls == b.calls[call := session]
              && if project == "" then after == b.(calls := after.calls)
                 else |after.history| > 0 &&
                      var r := after.history[|after.history| - 1];
                      && Adds(b, after, r) && WholeOf(r, project, "direct")
                      && r.id == id && r.call == call && r.key == "direct:" + call && r.createdAt == createdAt
                      && r.author == "system" && r.source == "record_model_call"
                      && r.reason == "initial direct allocation"
  {
    hide NewRevision;
    hide Committed;
    hide Adds;
    var req := DirectRequest(call, project);
    var added := b.(calls := b.calls[call := session]);
    var r := NewRevision(sha, b.history, req, id, createdAt);
    NewRevisionFulfils(sha, b.history, req, id, createdAt);
    CommittedAdds(added, r);
    LastOfAdded(added, Committed(added, r), r);
    SameButCalls(b, added, Committed(added, r), r);
  }

  lemma SameButCalls(b: Books, added: Books, after: Books, r: Revision)
    requires added == b.(calls := added.calls)
    ensures Adds(added, after, r) ==> Adds(b, after, r)
  {
  }

  // A revert that changes anything adds one revision of the reverted revision's call,
  // under the caller's key and reason.
  lemma RevertAdds(sha: Sha, b: Books, revisionId: string, key: string, reason: string, id: string, createdAt: string)
    ensures var after := Step(sha, b, RevertOp(revisionId, key, reason, id, createdAt));
            after == b ||
            (|after.history| > 0 &&
             var r := after.history[|after.history| - 1];
             && Adds(b, after, r) && after.calls == b.calls
             && (exists q :: q in b.history && q.id == revisionId && q.parent != "" && q.call == r.call)
             && r.id == id && r.key == key && r.createdAt == createdAt
             && r.author == "" && r.source == "revert" && r.reason == reason
             && forall k :: 0 <= k < |r.entries| ==>
                  r.entries[k].origin == "revert" && r.entries[k].confidence == "high")
  {
    hide Append;
    hide Decide;
    hide Adds;
    hide Sorted;
    hide SharesOf;
    hide TrimSpace;
    ByIdFinds(b.history, revisionId);
    var req := RevertRequest(b, revisionId, key, reason);
    if req.Some? {
      AppendAdds(sha, b, req.value, id, createdAt);
    }
  }

  lemma {:induction false} ByIdFinds(revisions: seq<Revision>, id: string)
    ensures ById(revisions, id).Some? ==> ById(revisions, id).value in revisions && ById(revisions, id).value.id == id
    ensures ById(revisions, id).None? <==> forall r :: r in revisions ==> r.id != id
  {
    if revisions != [] {
      ByIdFinds(revisions[1..], id);
      assert revisions == [revisions[0]] + revisions[1..];
    }
  }

  // ---- the order in which entries are read back -------------------------------------------

  predicate Sooner(a: string, b: string) {
    a != b && StringLe(a, b)
  }

  // By slug, where a project without one comes first, then project, points, method and
  // confidence.
  lemma ReadInOrder(projects: map<string, string>, entries: seq<Entry>, i: nat, j: nat)
    requires i < j < |Sorted(projects, entries)|
    ensures var e, f := Sorted(projects, entries)[i], Sorted(projects, entries)[j];
            var s := if e.project in projects then projects[e.project] else "";
            var t := if f.project in projects then projects[f.project] else "";
            || Sooner(s, t)
            || (s == t && (|| Sooner(e.project, f.project)
                           || (e.project == f.project
                               && (|| e.points < f.points
                                   || (e.points == f.points
                                       && (Sooner(e.origin, f.origin)
                                           || (e.origin == f.origin && StringLe(e.confidence, f.confidence))))))))
    ensures multiset(Sorted(projects, entries)) == multiset(entries)
  {
    hide StringLe;
    EntryOrderTotal(projects);
    SortSorted(EntryOrder(projects), entries);
    SortMultiset(EntryOrder(projects), entries);
    assert EntryOrder(projects)(Sorted(projects, entries)[i], Sorted(projects, entries)[j]);
  }

  // ---- what verification accepts ----------------------------------------------------------

  // The k-th revision of a call has its number and its hash, and points at the one before.
  predicate Stands(sha: Sha, mine: seq<Revision>, k: nat)
    requires k < |mine|
  {
    && mine[k].number == k + 1 && mine[k].hash != ""
    && mine[k].parent == (if k == 0 then "" else mine[k - 1].id)
    && mine[k].previousHash == (if k == 0 then "" else mine[k - 1].hash)
    && mine[k].hash == RevisionHash(sha, mine[k], mine[k].previousHash)
  }

  lemma {:induction false} ChainStands(sha: Sha, mine: seq<Revision>)
    ensures ChainIntact(mine) && ContentsIntact(sha, mine) <==> forall k :: 0 <= k < |mine| ==> Stands(sha, mine, k)
  {
    hide RevisionHash;
    if mine != [] {
      var init, n := mine[..|mine| - 1], |mine| - 1;
      ChainStands(sha, init);
      forall k | 0 <= k < n ensures Stands(sha, mine, k) <==> Stands(sha, init, k) {
        assert mine[k] == init[k];
      }
      assert ContentsIntact(sha, mine) <==>
             ContentsIntact(sha, init) && mine[n].hash == RevisionHash(sha, mine[n], mine[n].previousHash);
      if ChainIntact(mine) && n > 0 {
        ChainNumbers(init, n - 1);
      }
      if forall k :: 0 <= k < |mine| ==> Stands(sha, mine, k) {
        assert Stands(sha, mine, n);
        assert n > 0 ==> Stands(sha, mine, n - 1);
      }
      if ChainIntact(mine) && ContentsIntact(sha, mine) {
        assert Stands(sha, mine, n);
      }
    }
  }

  // The calls of one session, or all of them.
  predicate Asked(b: Books, session: string, call: string) {
    if session == "" then true else call in b.calls && b.calls[call] == session
  }

  // The revisions of a call, its head and its projection all agree.
  predicate CallStands(sha: Sha, b: Books, call: string) {
    var mine := Of(b.history, call);
    && (forall k :: 0 <= k < |mine| ==> Stands(sha, mine, k))
    && (call in b.heads ==>
          mine != [] && b.heads[call].revisionId == mine[|mine| - 1].id
          && b.heads[call].hash == mine[|mine| - 1].hash)
    && (mine != [] ==> ProjectionMatches(b.projects, SlotsFor(b, call), mine[|mine| - 1].entries))
  }

  lemma CallStandsExactly(sha: Sha, b: Books, call: string)
    ensures CallVerifies(sha, b, call) <==> CallStands(sha, b, call)
  {
    hide Of;
    hide Stands;
    hide ChainIntact;
    hide ContentsIntact;
    hide ProjectionMatches;
    hide SlotsFor;
    ChainStands(sha, Of(b.history, call));
  }

  // Main result on verifying allocations: they are accepted exactly when each asked call
  // stands, and no two revisions of asked calls share an id under different hashes.
  lemma AllocationsVerifyExactly(sha: Sha, b: Books, session: string)
    ensures AllocationsVerify(sha, b, session) <==>
            && (forall r, q :: r in b.history && q in b.history ==>
                  (Asked(b, session, r.call) && Asked(b, session, q.call) && r.id == q.id ==> r.hash == q.hash))
            && forall call :: Asked(b, session, call) ==> CallStands(sha, b, call)
  {
    hide CallStands;
    hide CallVerifies;
    forall call
      ensures Covers(b, session, call) <==> Asked(b, session, call)
      ensures CallVerifies(sha, b, call) <==> CallStands(sha, b, call)
    {
      CallStandsExactly(sha, b, call);
    }
  }
}
