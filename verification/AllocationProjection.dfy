/** When the maintained projection passes verification, and what rebuilding and
    reverting restore (internal/storage/sqlite/store.go). */
module AllocationProjection {
  import opened Basics
  import opened Sorting
  import opened Text
  import opened AuditChain
  import opened Revisions
  import opened Allocations
  import opened AllocationRuns

  // ---- the comparison of one projection -------------------------------------------

  predicate BarFree(s: string) {
    '|' !in s
  }

  predicate EntryBarFree(e: Entry) {
    BarFree(e.project) && BarFree(e.confidence)
  }

  lemma SlotTextSplit(s: Slot)
    ensures SlotText(s) == Itoa(s.ordinal) + ['|'] +
              (s.entry.project + ['|'] + (Itoa(s.entry.points) + ['|'] + (s.entry.origin + ['|'] + s.entry.confidence)))
  {
    hide Itoa;
  }

  // A slot can be read back from its text when neither the project nor the
  // confidence holds the separator.
  lemma SlotTextInjective(s: Slot, t: Slot)
    requires EntryBarFree(s.entry) && EntryBarFree(t.entry)
    ensures SlotText(s) == SlotText(t) <==> s == t
  {
    hide Itoa;
    hide SlotText;
    if SlotText(s) == SlotText(t) {
      SlotTextSplit(s);
      SlotTextSplit(t);
      ItoaAvoids(s.ordinal, '|');
      ItoaAvoids(t.ordinal, '|');
      ItoaAvoids(s.entry.points, '|');
      ItoaAvoids(t.entry.points, '|');
      var x1, y1 := s.entry.origin + ['|'] + s.entry.confidence, t.entry.origin + ['|'] + t.entry.confidence;
      var x2, y2 := Itoa(s.entry.points) + ['|'] + x1, Itoa(t.entry.points) + ['|'] + y1;
      var x3, y3 := s.entry.project + ['|'] + x2, t.entry.project + ['|'] + y2;
      SplitAtFirst('|', Itoa(s.ordinal), x3, Itoa(t.ordinal), y3);
      SplitAtFirst('|', s.entry.project, x2, t.entry.project, y2);
      SplitAtFirst('|', Itoa(s.entry.points), x1, Itoa(t.entry.points), y1);
      SplitAtLast('|', s.entry.origin, s.entry.confidence, t.entry.origin, t.entry.confidence);
      ItoaInjective(s.ordinal, t.ordinal);
      ItoaInjective(s.entry.points, t.entry.points);
    }
  }

  predicate AllBarFree(entries: seq<Entry>) {
    forall k :: 0 <= k < |entries| ==> EntryBarFree(entries[k])
  }

  // Two listings whose texts agree in some order agree position by position: the
  // texts carry the ordinals.
  lemma TextsFixPositions(a: seq<Entry>, b: seq<Entry>)
    requires AllBarFree(a) && AllBarFree(b) && |a| == |b|
    requires multiset(Image(SlotText, SlotsOf(a))) == multiset(Image(SlotText, SlotsOf(b)))
    ensures a == b
  {
    hide SlotText;
    hide SlotsOf;
    hide EntryBarFree;
    forall i | 0 <= i < |a| ensures a[i] == b[i] {
      SlotAt(a, i);
      ImageAt(SlotText, SlotsOf(a), i);
      var text := Image(SlotText, SlotsOf(a))[i];
      assert text in multiset(Image(SlotText, SlotsOf(a)));
      assert text in Image(SlotText, SlotsOf(b));
      var j: nat :| j < |b| && Image(SlotText, SlotsOf(b))[j] == text;
      SlotAt(b, j);
      ImageAt(SlotText, SlotsOf(b), j);
      SlotTextInjective(Slot(i, a[i]), Slot(j, b[j]));
    }
  }

  lemma SortedOfProjected(projects: map<string, string>, slots: seq<Slot>, entries: seq<Entry>)
    requires Projected(slots, entries)
    ensures Sorted(projects, EntriesIn(slots)) == Sorted(projects, entries) && |slots| == |entries|
    ensures SortedBy(EntryOrder(projects), EntriesIn(slots)) <==> Sorted(projects, entries) == EntriesIn(slots)
  {
    hide EntryOrder;
    hide SlotsOf;
    hide EntriesIn;
    EntryOrderTotal(projects);
    SortDependsOnMultiset(EntryOrder(projects), EntriesIn(slots), entries);
    SortFixpoint(EntryOrder(projects), EntriesIn(slots));
    assert |multiset(EntriesIn(slots))| == |EntriesIn(slots)| && |multiset(entries)| == |entries|;
  }

  // Sorted entries match whatever the ids.
  lemma SortedProjectionMatches(projects: map<string, string>, slots: seq<Slot>, entries: seq<Entry>)
    requires Projected(slots, entries) && SortedBy(EntryOrder(projects), EntriesIn(slots))
    ensures ProjectionMatches(projects, slots, entries)
  {
    hide EntryOrder;
    hide SlotText;
    hide StringLe;
    SortedOfProjected(projects, slots, entries);
  }

  // The comparison holds exactly when the slots list the entries in the order
  // every reader sorts them.
  lemma ProjectionMatchesExactly(projects: map<string, string>, slots: seq<Slot>, entries: seq<Entry>)
    requires Projected(slots, entries) && AllBarFree(entries)
    ensures ProjectionMatches(projects, slots, entries) <==> SortedBy(EntryOrder(projects), EntriesIn(slots))
  {
    hide EntryOrder;
    hide SlotText;
    hide StringLe;
    hide SlotsOf;
    hide EntryBarFree;
    hide Sort;
    var sorted := Sorted(projects, entries);
    SortedOfProjected(projects, slots, entries);
    if SortedBy(EntryOrder(projects), EntriesIn(slots)) {
      SortedProjectionMatches(projects, slots, entries);
    }
    if ProjectionMatches(projects, slots, entries) {
      var a, b := Image(SlotText, slots), Image(SlotText, SlotsOf(sorted));
      SortMultiset(StringLe, a);
      SortMultiset(StringLe, b);
      BarFreePermutes(entries, EntriesIn(slots));
      SortedMultiset(projects, entries);
      BarFreePermutes(entries, sorted);
      TextsFixPositions(EntriesIn(slots), sorted);
    }
  }

  lemma BarFreePermutes(a: seq<Entry>, b: seq<Entry>)
    requires AllBarFree(a) && multiset(a) == multiset(b)
    ensures AllBarFree(b)
  {
    hide EntryBarFree;
    forall k | 0 <= k < |b| ensures EntryBarFree(b[k]) {
      assert b[k] in multiset(a);
    }
  }

  // ---- the whole verification -------------------------------------------------------

  lemma KeptRows(sha: Sha, b: Books, session: string)
    requires Kept(sha, b)
    ensures CoveredIdsConsistent(b, session)
  {
    hide CallKept;
    hide Covers;
  }

  // In a kept state only the projection is left to check.
  lemma KeptCallVerifies(sha: Sha, b: Books, call: string)
    requires CallKept(sha, b, call)
    ensures CallVerifies(sha, b, call) <==>
            (call in b.projection ==> ProjectionMatches(b.projects, b.projection[call], LastEntries(b.history, call)))
    ensures call in b.projection ==> Projected(b.projection[call], LastEntries(b.history, call))
    ensures forall k :: 0 <= k < |LastEntries(b.history, call)| ==> EntryOk(b.projects, LastEntries(b.history, call)[k])
  {
    hide ChainIntact;
    hide Of;
    hide RevisionHash;
    hide KeysDistinct;
    hide Projected;
    hide ProjectionMatches;
    hide Whole;
    hide SharesOf;
  }

  predicate ProjectIdsBarFree(b: Books) {
    forall p :: p in b.projects ==> BarFree(p)
  }

  predicate ProjectionSorted(b: Books, call: string) {
    call in b.projection ==> SortedBy(EntryOrder(b.projects), EntriesIn(b.projection[call]))
  }

  lemma CallVerifiesExactly(sha: Sha, b: Books, call: string)
    requires CallKept(sha, b, call)
    ensures ProjectionSorted(b, call) ==> CallVerifies(sha, b, call)
    ensures ProjectIdsBarFree(b) && CallVerifies(sha, b, call) ==> ProjectionSorted(b, call)
  {
    hide CallKept;
    hide CallVerifies;
    hide LastEntries;
    hide ProjectionMatches;
    hide Projected;
    hide EntryOrder;
    hide EntriesIn;
    KeptCallVerifies(sha, b, call);
    if call in b.projection {
      var slots, entries := b.projection[call], LastEntries(b.history, call);
      if ProjectionSorted(b, call) {
        SortedProjectionMatches(b.projects, slots, entries);
      }
      if ProjectIdsBarFree(b) {
        assert BarFree("high");
        assert AllBarFree(entries);
        ProjectionMatchesExactly(b.projects, slots, entries);
      }
    }
  }

  // Main result on verification: in every reachable state it accepts exactly when
  // each covered call's projection lists its entries by slug, project, points,
  // method and confidence.
  lemma VerifiesExactly(sha: Sha, b: Books, session: string)
    requires Kept(sha, b) && ProjectIdsBarFree(b)
    ensures AllocationsVerify(sha, b, session) <==> forall call :: Covers(b, session, call) ==>
              ProjectionSorted(b, call)
  {
    hide CallKept;
    hide CallVerifies;
    hide IdsUnique;
    hide ProjectIdsBarFree;
    hide Covers;
    hide ProjectionSorted;
    KeptRows(sha, b, session);
    forall call ensures CallVerifies(sha, b, call) <==> ProjectionSorted(b, call) {
      assert CallKept(sha, b, call);
      CallVerifiesExactly(sha, b, call);
    }
  }

  // Committing a revision changes the order of its own call's projection only.
  lemma CommittedProjections(b: Books, r: Revision)
    ensures forall call :: call != r.call ==> (ProjectionSorted(Committed(b, r), call) <==> ProjectionSorted(b, call))
    ensures ProjectionSorted(Committed(b, r), r.call) <==> SortedBy(EntryOrder(b.projects), r.entries)
    ensures ProjectIdsBarFree(Committed(b, r)) <==> ProjectIdsBarFree(b)
    ensures forall call :: Covers(b, "", call) && Covers(Committed(b, r), "", call)
  {
    hide EntryOrder;
    SlotsRoundTrip(r.entries);
  }

  lemma AppendedIsCommitted(sha: Sha, b: Books, req: Request, id: string, createdAt: string)
    requires Decide(sha, b, req, id, createdAt).Appended?
    ensures Append(sha, b, req, id, createdAt) == Committed(b, NewRevision(sha, b.history, req, id, createdAt))
  {
    hide NewRevision;
    hide Committed;
    hide TrimSpace;
    hide Whole;
    hide SameShares;
    hide ByKey;
    hide Of;
  }

  // The order in which entries are read back, on the shares of one request: by
  // slug, then project id, then basis points.
  predicate ShareLe(projects: map<string, string>, x: Share, y: Share) {
    if Slug(projects, x.project) != Slug(projects, y.project)
        then StringLe(Slug(projects, x.project), Slug(projects, y.project))
    else if x.project != y.project then StringLe(x.project, y.project)
    else x.points <= y.points
  }

  predicate SharesOrdered(projects: map<string, string>, shares: seq<Share>) {
    forall i, j :: 0 <= i < j < |shares| ==> ShareLe(projects, shares[i], shares[j])
  }

  // Entries made from one request differ in nothing else.
  lemma SharesOrderEntries(projects: map<string, string>, shares: seq<Share>, origin: string)
    ensures SortedBy(EntryOrder(projects), EntriesOf(shares, origin)) <==> SharesOrdered(projects, shares)
  {
    hide StringLe;
    hide Slug;
    StringOrder();
    var entries := EntriesOf(shares, origin);
    EntriesOfLength(shares, origin);
    forall i: nat, j: nat | i < j < |shares|
      ensures EntryOrder(projects)(entries[i], entries[j]) <==> ShareLe(projects, shares[i], shares[j])
    {
      EntriesOfShares(shares, origin, i);
      EntriesOfShares(shares, origin, j);
    }
  }

  lemma {:induction false} EntriesOfLength(shares: seq<Share>, origin: string)
    ensures |EntriesOf(shares, origin)| == |shares|
  {
    if shares != [] {
      EntriesOfLength(shares[..|shares| - 1], origin);
    }
  }

  // Appending to a state that verifies leaves one that verifies exactly when the
  // request lists its shares in that order.
  lemma AppendVerifiesExactly(sha: Sha, b: Books, req: Request, id: string, createdAt: string)
    requires Digesting(sha) && Kept(sha, b) && ProjectIdsBarFree(b) && FreshId(b, id) && AllocationsVerify(sha, b, "")
    requires Decide(sha, b, req, id, createdAt).Appended?
    ensures AllocationsVerify(sha, Append(sha, b, req, id, createdAt), "") <==> SharesOrdered(b.projects, req.shares)
  {
    hide Kept;
    hide AllocationsVerify;
    hide NewRevision;
    hide EntryOrder;
    hide FreshId;
    hide Decide;
    hide Append;
    hide Committed;
    hide ProjectIdsBarFree;
    hide ProjectionSorted;
    hide Covers;
    hide SortedBy;
    hide SharesOrdered;
    hide LinksTo;
    hide RevisionHash;
    var r := NewRevision(sha, b.history, req, id, createdAt);
    AppendedIsCommitted(sha, b, req, id, createdAt);
    NewRevisionFits(sha, b.history, req, id, createdAt);
    AppendKeeps(sha, b, req, id, createdAt);
    CommittedProjections(b, r);
    VerifiesExactly(sha, b, "");
    VerifiesExactly(sha, Committed(b, r), "");
    SharesOrderEntries(b.projects, req.shares, if req.origin == "" then "manual" else req.origin);
  }

  // Main result on rebuilding: from the history alone it restores the same entries
  // for the same calls, and the result verifies, ordinals and all.
  lemma RebuildRestores(sha: Sha, b: Books, session: string)
    requires Digesting(sha) && Kept(sha, b)
    ensures Rebuilt(b).Keys == b.projection.Keys
    ensures forall call :: call in b.projection ==>
              multiset(EntriesIn(Rebuilt(b)[call])) == multiset(EntriesIn(b.projection[call]))
    ensures AllocationsVerify(sha, b.(projection := Rebuilt(b)), session)
  {
    hide CallKept;
    hide CallVerifies;
    hide Rebuilt;
    hide IdsUnique;
    hide Covers;
    hide EntriesIn;
    var after := b.(projection := Rebuilt(b));
    RebuildKeeps(sha, b);
    KeptRows(sha, after, session);
    forall call
      ensures CallVerifies(sha, after, call) && (call in b.projection <==> call in Rebuilt(b))
      ensures call in b.projection ==> multiset(EntriesIn(Rebuilt(b)[call])) == multiset(EntriesIn(b.projection[call]))
    {
      assert CallKept(sha, b, call);
      RebuiltCallVerifies(sha, b, call);
    }
  }

  lemma SortedIsSorted(projects: map<string, string>, entries: seq<Entry>)
    ensures SortedBy(EntryOrder(projects), Sorted(projects, entries))
  {
    EntryOrderTotal(projects);
    SortSorted(EntryOrder(projects), entries);
  }

  lemma RebuiltHolds(sha: Sha, b: Books, call: string)
    requires CallKept(sha, b, call)
    ensures call in b.projection <==> Of(b.history, call) != []
    ensures call in b.projection ==> multiset(EntriesIn(b.projection[call])) == multiset(LastEntries(b.history, call))
  {
    hide ChainIntact;
    hide RevisionsOk;
    hide KeysDistinct;
    hide EntriesIn;
    hide SlotsOf;
    hide Of;
  }

  lemma RebuiltCallVerifies(sha: Sha, b: Books, call: string)
    requires CallKept(sha, b, call)
    ensures CallVerifies(sha, b.(projection := Rebuilt(b)), call)
    ensures call in b.projection <==> call in Rebuilt(b)
    ensures call in b.projection ==> multiset(EntriesIn(Rebuilt(b)[call])) == multiset(EntriesIn(b.projection[call]))
  {
    hide CallVerifies;
    hide Rebuilt;
    hide EntryOrder;
    hide ChainIntact;
    hide RevisionsOk;
    hide KeysDistinct;
    hide EntriesIn;
    hide SlotsOf;
    hide Of;
    hide LastEntries;
    hide Sorted;
    hide CallKept;
    var after := b.(projection := Rebuilt(b));
    var entries := LastEntries(b.history, call);
    RebuiltCall(sha, b, call);
    RebuildKeepsCall(sha, b, call);
    SlotsRoundTrip(Sorted(b.projects, entries));
    SortedMultiset(b.projects, entries);
    SortedIsSorted(b.projects, entries);
    CallVerifiesExactly(sha, after, call);
    RebuiltHolds(sha, b, call);
  }

  // ---- reverting ------------------------------------------------------------------------

  lemma {:induction false} TotalConcat(a: seq<Share>, b: seq<Share>)
    ensures Total(a + b) == Total(a) + Total(b)
  {
    if b == [] {
      assert a + b == a;
    } else {
      assert (a + b)[..|a + b| - 1] == a + b[..|b| - 1];
      TotalConcat(a, b[..|b| - 1]);
    }
  }

  lemma {:induction false} TotalPermutes(a: seq<Share>, b: seq<Share>)
    requires multiset(a) == multiset(b)
    ensures Total(a) == Total(b)
  {
    assert |multiset(a)| == |a| && |multiset(b)| == |b|;
    if a != [] {
      var j := FindLast(a, b);
      TotalPermutes(a[..|a| - 1], b[..j] + b[j + 1..]);
      TotalConcat(b[..j], b[j + 1..]);
      TotalConcat(b[..j] + [b[j]], b[j + 1..]);
      TotalConcat(b[..j], [b[j]]);
      assert Total([b[j]]) == b[j].points by { assert Total([b[j]][..0]) == 0; }
    }
  }

  // Whether shares make a whole does not depend on their order.
  lemma WholePermutes(a: seq<Share>, b: seq<Share>)
    requires multiset(a) == multiset(b) && Whole(a)
    ensures Whole(b)
  {
    hide Total;
    TotalPermutes(a, b);
    assert |multiset(a)| == |a| && |multiset(b)| == |b|;
    forall k | 0 <= k < |b| ensures 0 <= b[k].points <= WHOLE {
      assert b[k] in multiset(a);
    }
  }

  lemma {:induction false} ByIdUnique(history: seq<Revision>, r: Revision)
    requires IdsUnique(history) && r in history
    ensures ById(history, r.id) == Some(r)
  {
    if history[0] != r {
      assert forall k :: 0 <= k < |history| - 1 ==> history[1..][k] == history[k + 1];
      ByIdUnique(history[1..], r);
      var j :| 0 <= j < |history| && history[j] == r;
      assert history[0].id != history[j].id;
    }
  }

  // Entries that differ only in how they were decided keep their order.
  lemma RelabelledOrder(projects: map<string, string>, entries: seq<Entry>, origin: string)
    requires SortedBy(EntryOrder(projects), entries)
    ensures SortedBy(EntryOrder(projects), EntriesOf(SharesOf(entries), origin))
  {
    hide StringLe;
    hide Slug;
    StringOrder();
    var shares := SharesOf(entries);
    var relabelled := EntriesOf(shares, origin);
    forall i, j | 0 <= i < j < |relabelled| ensures EntryOrder(projects)(relabelled[i], relabelled[j]) {
      EntriesOfShares(shares, origin, i);
      EntriesOfShares(shares, origin, j);
      ImageAt(ShareOf, entries, i);
      ImageAt(ShareOf, entries, j);
      assert EntryOrder(projects)(entries[i], entries[j]);
    }
  }

  // The parent of a revision, as the history is searched for it.
  lemma ParentFound(sha: Sha, b: Books, call: string, k: nat)
    requires Kept(sha, b) && k < |Of(b.history, call)|
    ensures var mine := Of(b.history, call);
            && ById(b.history, mine[k].id) == Some(mine[k]) && mine[k].call == call
            && (k == 0 ==> mine[k].parent == "")
            && (k > 0 ==> mine[k].parent != "" && ById(b.history, mine[k].parent) == Some(mine[k - 1]))
            && RevisionOk(sha, b.projects, mine[k])
  {
    hide Of;
    hide ById;
    hide RevisionOk;
    hide LinksTo;
    var mine := Of(b.history, call);
    assert CallKept(sha, b, call);
    OfMembers(b.history, call);
    ChainNumbers(mine, k);
    assert mine[k] in mine;
    ByIdUnique(b.history, mine[k]);
    if k > 0 {
      assert mine[k - 1] in mine;
      ByIdUnique(b.history, mine[k - 1]);
    }
  }

  // The request a revert appends: refused for a first revision, the parent's
  // shares otherwise.
  lemma RevertRequestIs(sha: Sha, b: Books, call: string, k: nat, key: string, reason: string)
    requires Kept(sha, b) && k < |Of(b.history, call)|
    requires TrimSpace(Of(b.history, call)[k].id) != "" && TrimSpace(reason) != ""
    ensures RevertRequest(b, Of(b.history, call)[k].id, key, reason) ==
            if k == 0 then None
            else Some(Request(call, SharesOf(Sorted(b.projects, Of(b.history, call)[k - 1].entries)), key, "",
                              "revert", reason, "revert", false))
  {
    hide Of;
    hide ById;
    hide RevisionOk;
    hide Sorted;
    hide SharesOf;
    hide TrimSpace;
    hide Kept;
    ParentFound(sha, b, call, k);
  }

  lemma RevertSharesOk(sha: Sha, projects: map<string, string>, parent: Revision)
    requires RevisionOk(sha, projects, parent)
    ensures var shares := SharesOf(Sorted(projects, parent.entries));
            Whole(shares) && ProjectsKnown(projects, shares) && multiset(shares) == multiset(SharesOf(parent.entries))
  {
    hide Whole;
    hide RevisionHash;
    hide Sorted;
    var sorted := Sorted(projects, parent.entries);
    SharesReadBack(projects, parent.entries, SharesOf(parent.entries));
    WholePermutes(SharesOf(parent.entries), SharesOf(sorted));
    SortedMultiset(projects, parent.entries);
    forall k | 0 <= k < |sorted| ensures SharesOf(sorted)[k].project in projects {
      ImageAt(ShareOf, sorted, k);
      assert sorted[k] in multiset(parent.entries);
    }
  }

  lemma RevertDecides(sha: Sha, b: Books, call: string, parent: Revision, key: string, reason: string, id: string,
      createdAt: string)
    requires RevisionOk(sha, b.projects, parent) && call in b.calls
    requires TrimSpace(call) != "" && TrimSpace(key) != "" && ByKey(Of(b.history, call), key).None?
    ensures var req := Request(call, SharesOf(Sorted(b.projects, parent.entries)), key, "", "revert", reason, "revert",
            false);
            && Decide(sha, b, req, id, createdAt) == Appended(NewRevision(sha, b.history, req, id, createdAt))
            && Append(sha, b, req, id, createdAt) == Committed(b, NewRevision(sha, b.history, req, id, createdAt))
  {
    hide Of;
    hide ByKey;
    hide TrimSpace;
    hide Whole;
    hide ProjectsKnown;
    hide RevisionOk;
    hide NewRevision;
    hide SharesOf;
    hide Sorted;
    hide SameShares;
    RevertSharesOk(sha, b.projects, parent);
  }

  // Main result on reverting: a first revision cannot be reverted; any other one
  // gives the call a new last revision that allocates as its parent did, and the
  // call's projection is one that verifies.
  lemma RevertRestoresParent(sha: Sha, b: Books, call: string, k: nat, key: string, reason: string, id: string,
      createdAt: string)
    requires Digesting(sha) && Kept(sha, b) && FreshId(b, id) && k < |Of(b.history, call)|
    requires TrimSpace(call) != "" && TrimSpace(Of(b.history, call)[k].id) != "" && TrimSpace(key) != ""
             && TrimSpace(reason) != ""
    requires ByKey(Of(b.history, call), key).None?
    ensures var mine := Of(b.history, call);
            var after := Step(sha, b, RevertOp(mine[k].id, key, reason, id, createdAt));
            if k == 0 then after == b
            else
              var r := Last(Of(after.history, call));
              && r.Some? && Of(after.history, call) == mine + [r.value] && r.value.id == id && r.value.key == key
              && multiset(SharesOf(r.value.entries)) == multiset(SharesOf(mine[k - 1].entries))
              && ProjectionSorted(after, call)
  {
    hide Of;
    hide ByKey;
    hide TrimSpace;
    hide RevisionOk;
    hide NewRevision;
    hide SharesOf;
    hide Sorted;
    hide ProjectionSorted;
    hide Kept;
    hide RevertRequest;
    hide Append;
    hide Committed;
    hide FreshId;
    var mine := Of(b.history, call);
    RevertRequestIs(sha, b, call, k, key, reason);
    if k > 0 {
      ParentFound(sha, b, call, k - 1);
      KeptCallExists(sha, b, call);
      RevertDecides(sha, b, call, mine[k - 1], key, reason, id, createdAt);
      RevertedRevision(sha, b, call, mine[k - 1], key, reason, id, createdAt);
    }
  }

  // The revision a revert commits.
  lemma RevertedRevision(sha: Sha, b: Books, call: string, parent: Revision, key: string, reason: string, id: string,
      createdAt: string)
    requires Digesting(sha) && RevisionOk(sha, b.projects, parent)
    ensures var req := Request(call, SharesOf(Sorted(b.projects, parent.entries)), key, "", "revert", reason, "revert",
            false);
            var r := NewRevision(sha, b.history, req, id, createdAt);
            var after := Committed(b, r);
            && Of(after.history, call) == Of(b.history, call) + [r] && r.id == id && r.key == key
            && multiset(SharesOf(r.entries)) == multiset(SharesOf(parent.entries))
            && ProjectionSorted(after, call)
  {
    hide Of;
    hide RevisionOk;
    hide NewRevision;
    hide SharesOf;
    hide Sorted;
    hide ProjectionSorted;
    hide EntryOrder;
    hide SortedBy;
    hide LinksTo;
    hide RevisionHash;
    hide Whole;
    hide ProjectsKnown;
    var shares := SharesOf(Sorted(b.projects, parent.entries));
    var req := Request(call, shares, key, "", "revert", reason, "revert", false);
    var r := NewRevision(sha, b.history, req, id, createdAt);
    RevertSharesOk(sha, b.projects, parent);
    NewRevisionFits(sha, b.history, req, id, createdAt);
    OfNext(b.history, r, call);
    SharesOfEntries(shares, "revert");
    SortedIsSorted(b.projects, parent.entries);
    RelabelledOrder(b.projects, Sorted(b.projects, parent.entries), "revert");
    CommittedProjections(b, r);
  }

  lemma KeptCallExists(sha: Sha, b: Books, call: string)
    requires Kept(sha, b) && Of(b.history, call) != []
    ensures call in b.calls
  {
    assert CallKept(sha, b, call);
  }

  // Reverting the last revision and then the revert allocates the call as before.
  lemma RevertTwiceRestores(sha: Sha, b: Books, call: string, reason: string,
                            key: string, id: string, createdAt: string, key2: string, id2: string, createdAt2: string)
    requires Digesting(sha) && Kept(sha, b) && FreshId(b, id) && FreshId(b, id2) && id2 != id && key2 != key
    requires |Of(b.history, call)| > 1 && TrimSpace(id) != ""
    requires TrimSpace(call) != "" && TrimSpace(Of(b.history, call)[|Of(b.history, call)| - 1].id) != ""
    requires TrimSpace(key) != "" && TrimSpace(key2) != "" && TrimSpace(reason) != ""
    requires ByKey(Of(b.history, call), key).None? && ByKey(Of(b.history, call), key2).None?
    ensures var mine := Of(b.history, call);
            var once := Step(sha, b, RevertOp(mine[|mine| - 1].id, key, reason, id, createdAt));
            var twice := Step(sha, once, RevertOp(id, key2, reason, id2, createdAt2));
            var r := Last(Of(twice.history, call));
            r.Some? && |Of(twice.history, call)| == |mine| + 2
            && multiset(SharesOf(r.value.entries)) == multiset(SharesOf(mine[|mine| - 1].entries))
  {
    hide Of;
    hide ByKey;
    hide ById;
    hide TrimSpace;
    hide SharesOf;
    hide ProjectionSorted;
    hide Kept;
    hide Step;
    var mine := Of(b.history, call);
    var n := |mine|;
    var once := Step(sha, b, RevertOp(mine[n - 1].id, key, reason, id, createdAt));
    RevertRestoresParent(sha, b, call, n - 1, key, reason, id, createdAt);
    StepKeeps(sha, b, RevertOp(mine[n - 1].id, key, reason, id, createdAt));
    ByKeyOther(mine, Of(once.history, call)[n], key2);
    StepKeepsFresh(sha, b, RevertOp(mine[n - 1].id, key, reason, id, createdAt), id2);
    RevertRestoresParent(sha, once, call, n, key2, reason, id2, createdAt2);
  }

  lemma {:induction false} ByKeyOther(revisions: seq<Revision>, r: Revision, key: string)
    requires ByKey(revisions, key).None? && r.key != key
    ensures ByKey(revisions + [r], key).None?
  {
    ByKeyFinds(revisions, key);
    ByKeyFinds(revisions + [r], key);
  }

  // An id other than the one just drawn stays unused.
  lemma StepKeepsFresh(sha: Sha, b: Books, op: Op, id: string)
    requires FreshId(b, id) && op.RevertOp? && op.id != id
    ensures FreshId(Step(sha, b, op), id)
  {
    hide NewRevision;
    hide RevertRequest;
    hide TrimSpace;
    hide Whole;
    hide SameShares;
    hide ByKey;
    hide Of;
    hide ById;
    hide ProjectsKnown;
    var req := RevertRequest(b, op.revisionId, op.key, op.reason);
    if req.Some? {
      var r := NewRevision(sha, b.history, req.value, op.id, op.createdAt);
      NewRevisionId(sha, b.history, req.value, op.id, op.createdAt);
      ByIdFinds(b.history, id);
      ByIdFinds(b.history + [r], id);
    }
  }

  lemma NewRevisionId(sha: Sha, history: seq<Revision>, req: Request, id: string, createdAt: string)
    ensures NewRevision(sha, history, req, id, createdAt).id == id
  {
    hide RevisionHash;
    hide Of;
  }

  // ---- a split that does not verify --------------------------------------------------------

  // Two projects, one call, and a split that names the later slug first: it is
  // accepted, and the ledger no longer verifies.
  lemma UnsortedSplitBreaks(sha: Sha)
    requires Digesting(sha)
    ensures var ops := [AddProject("p", "a"), AddProject("q", "b"), NewCall("c", "s", "", "r0", "t")];
            var b := Run(sha, EMPTY, ops);
            var req := SplitRequest("c", [Share("q", 5000), Share("p", 5000)], "k");
            && AllocationsVerify(sha, b, "") && Decide(sha, b, req, "r1", "t").Appended?
            && !AllocationsVerify(sha, Append(sha, b, req, "r1", "t"), "")
  {
    hide NewRevision;
    hide TrimSpace;
    hide Kept;
    hide AllocationsVerify;
    hide Append;
    hide Run;
    hide Decide;
    hide SharesOrdered;
    hide FreshId;
    var ops := [AddProject("p", "a"), AddProject("q", "b"), NewCall("c", "s", "", "r0", "t")];
    var b := Books(map["p" := "a", "q" := "b"], map["c" := "s"], [], map[], map[]);
    ThreeSteps(sha);
    var shares := [Share("q", 5000), Share("p", 5000)];
    var req := SplitRequest("c", shares, "k");
    NoHistory(sha, b);
    SplitAccepted(sha, b, shares);
    AppendVerifiesExactly(sha, b, req, "r1", "t");
    UnsortedShares(b.projects);
  }

  lemma UnsortedShares(projects: map<string, string>)
    requires projects == map["p" := "a", "q" := "b"]
    ensures !SharesOrdered(projects, [Share("q", 5000), Share("p", 5000)])
  {
    var shares := [Share("q", 5000), Share("p", 5000)];
    assert !StringLe("b", "a");
    assert !ShareLe(projects, shares[0], shares[1]);
  }

  lemma ThreeSteps(sha: Sha)
    ensures Run(sha, EMPTY, [AddProject("p", "a"), AddProject("q", "b"), NewCall("c", "s", "", "r0", "t")]) ==
            Books(map["p" := "a", "q" := "b"], map["c" := "s"], [], map[], map[])
  {
    hide NewRevision;
    hide Run;
    var one, two, three := AddProject("p", "a"), AddProject("q", "b"), NewCall("c", "s", "", "r0", "t");
    assert [one] == [] + [one];
    assert [one, two] == [one] + [two];
    assert [one, two, three] == [one, two] + [three];
    RunNothing(sha, EMPTY);
    RunNext(sha, EMPTY, [], one);
    RunNext(sha, EMPTY, [one], two);
    RunNext(sha, EMPTY, [one, two], three);
    assert map["p" := "a"]["q" := "b"] == map["p" := "a", "q" := "b"];
  }

  lemma RunNothing(sha: Sha, b: Books)
    ensures Run(sha, b, []) == b
  {
  }

  lemma RunNext(sha: Sha, b: Books, ops: seq<Op>, op: Op)
    ensures Run(sha, b, ops + [op]) == Step(sha, Run(sha, b, ops), op)
  {
    hide Step;
    assert (ops + [op])[..|ops|] == ops;
  }

  lemma NoHistory(sha: Sha, b: Books)
    requires b.history == [] && b.projection == map[] && b.heads == map[]
    ensures Kept(sha, b) && AllocationsVerify(sha, b, "") && FreshId(b, "r1")
  {
    forall call ensures CallKept(sha, b, call) && CallVerifies(sha, b, call) {
    }
  }

  lemma SplitAccepted(sha: Sha, b: Books, shares: seq<Share>)
    requires b.history == [] && "c" in b.calls && shares == [Share("q", 5000), Share("p", 5000)]
    requires "p" in b.projects && "q" in b.projects
    ensures Decide(sha, b, SplitRequest("c", shares, "k"), "r1", "t").Appended?
  {
    hide NewRevision;
    hide Total;
    assert TrimLeft("c") == "c" && TrimLeft("k") == "k";
    assert Total(shares) == WHOLE by { TotalOfTwo(shares); }
  }

  lemma TotalOfTwo(shares: seq<Share>)
    requires |shares| == 2
    ensures Total(shares) == shares[0].points + shares[1].points
  {
    assert shares[..1][..0] == [] && shares[..1][0] == shares[0];
    assert Total(shares[..1]) == shares[0].points;
  }
}
