/** The loops that verify the allocation tables
    (internal/storage/sqlite/store.go). */
module AllocationVerification {
  import opened Basics
  import opened Sorting
  import opened Text
  import opened AuditChain
  import opened Revisions
  import opened Allocations

  // ---- the links between revisions ---------------------------------------------------

  // The state kept for one call: its last revision so far.
  datatype Tail = Tail(previousId: string, previousHash: string, number: int)

  function TailOf(revisions: seq<Revision>): Option<Tail> {
    match Last(revisions)
    case None => None
    case Some(r) => Some(Tail(r.id, r.hash, r.number))
  }

  function TailIn(states: map<string, Tail>, call: string): Option<Tail> {
    if call in states then Some(states[call]) else None
  }

  ghost predicate ChainsIntact(rows: seq<Revision>) {
    forall call :: ChainIntact(Of(rows, call))
  }

  ghost predicate Tracks(states: map<string, Tail>, rows: seq<Revision>) {
    forall call :: TailIn(states, call) == TailOf(Of(rows, call))
  }

  predicate HasHash(rows: seq<Revision>, id: string, hash: string) {
    exists r :: r in rows && r.id == id && r.hash == hash
  }

  predicate SeenIds(seen: map<string, string>, rows: seq<Revision>) {
    && (forall id :: id in seen ==> HasHash(rows, id, seen[id]))
    && (forall r :: r in rows ==> r.id in seen && seen[r.id] == r.hash)
  }

  predicate LinksToTail(prior: Option<Tail>, r: Revision) {
    && r.hash != ""
    && match prior
       case None => r.number == 1 && r.parent == "" && r.previousHash == ""
       case Some(t) => r.number == t.number + 1 && r.parent == t.previousId && r.previousHash == t.previousHash
  }

  lemma ChainsIntactNext(rows: seq<Revision>, r: Revision)
    ensures ChainsIntact(rows + [r]) <==> ChainsIntact(rows) && LinksToTail(TailOf(Of(rows, r.call)), r)
  {
    hide ChainIntact;
    hide Of;
    var after := rows + [r];
    var mine := Of(rows, r.call);
    LinkedNext(mine, r);
    forall call ensures Of(after, call) == if call == r.call then mine + [r] else Of(rows, call) {
      OfNext(rows, r, call);
    }
    if ChainsIntact(after) {
      forall call ensures ChainIntact(Of(rows, call)) {
        assert ChainIntact(Of(after, call));
      }
      assert ChainIntact(Of(after, r.call));
    }
  }

  lemma LinkedNext(revisions: seq<Revision>, r: Revision)
    ensures ChainIntact(revisions + [r]) <==> ChainIntact(revisions) && LinksToTail(TailOf(revisions), r)
  {
    assert (revisions + [r])[..|revisions|] == revisions;
  }

  lemma TracksNext(states: map<string, Tail>, rows: seq<Revision>, r: Revision)
    requires Tracks(states, rows)
    ensures Tracks(states[r.call := Tail(r.id, r.hash, r.number)], rows + [r])
  {
    hide Of;
    var next, after := states[r.call := Tail(r.id, r.hash, r.number)], rows + [r];
    forall call ensures TailIn(next, call) == TailOf(Of(after, call)) {
      OfNext(rows, r, call);
      assert TailIn(states, call) == TailOf(Of(rows, call));
    }
  }

  lemma IntactPrefix(rows: seq<Revision>, n: nat)
    requires n <= |rows| && ChainsIntact(rows) && IdsConsistent(rows)
    ensures ChainsIntact(rows[..n]) && IdsConsistent(rows[..n])
    decreases |rows| - n
  {
    hide ChainsIntact;
    if n < |rows| {
      IntactPrefix(rows, n + 1);
      assert rows[..n + 1] == rows[..n] + [rows[n]];
      ChainsIntactNext(rows[..n], rows[n]);
    } else {
      assert rows[..n] == rows;
    }
  }

  // What the first loop has established after its first i rows.
  ghost predicate Passed(rows: seq<Revision>, i: nat, states: map<string, Tail>, seen: map<string, string>)
    requires i <= |rows|
  {
    ChainsIntact(rows[..i]) && IdsConsistent(rows[..i]) && Tracks(states, rows[..i]) && SeenIds(seen, rows[..i])
  }

  predicate RowAccepted(r: Revision, prior: Option<Tail>, seen: map<string, string>) {
    LinksToTail(prior, r) && (r.id in seen ==> seen[r.id] == r.hash)
  }

  lemma PassedStart(rows: seq<Revision>)
    ensures Passed(rows, 0, map[], map[])
  {
    assert rows[..0] == [];
  }

  lemma HasHashNext(rows: seq<Revision>, r: Revision, id: string, hash: string)
    ensures HasHash(rows, id, hash) || (r.id == id && r.hash == hash) ==> HasHash(rows + [r], id, hash)
  {
    assert r in rows + [r];
    if HasHash(rows, id, hash) {
      var q :| q in rows && q.id == id && q.hash == hash;
      assert q in rows + [r];
    }
  }

  lemma SeenNext(seen: map<string, string>, rows: seq<Revision>, r: Revision)
    requires SeenIds(seen, rows) && IdsConsistent(rows)
    ensures IdsConsistent(rows + [r]) <==> (r.id in seen ==> seen[r.id] == r.hash)
  {
    var after := rows + [r];
    assert r in after;
    if r.id in seen && seen[r.id] != r.hash {
      assert HasHash(rows, r.id, seen[r.id]);
      var q :| q in rows && q.id == r.id && q.hash == seen[r.id];
      assert q in after;
    }
  }

  lemma SeenGrows(seen: map<string, string>, rows: seq<Revision>, r: Revision)
    requires SeenIds(seen, rows) && (r.id in seen ==> seen[r.id] == r.hash)
    ensures SeenIds(seen[r.id := r.hash], rows + [r])
  {
    hide HasHash;
    var next, after := seen[r.id := r.hash], rows + [r];
    forall id | id in next ensures HasHash(after, id, next[id]) {
      HasHashNext(rows, r, id, next[id]);
    }
  }

  lemma PassedNext(rows: seq<Revision>, i: nat, states: map<string, Tail>, seen: map<string, string>)
    requires i < |rows| && Passed(rows, i, states, seen)
    ensures var r := rows[i];
            if RowAccepted(r, TailIn(states, r.call), seen)
            then Passed(rows, i + 1, states[r.call := Tail(r.id, r.hash, r.number)], seen[r.id := r.hash])
            else !(ChainsIntact(rows) && IdsConsistent(rows))
  {
    hide ChainsIntact;
    hide Tracks;
    hide LinksToTail;
    hide TailOf;
    hide IdsConsistent;
    hide SeenIds;
    var before, r := rows[..i], rows[i];
    assert rows[..i + 1] == before + [r];
    ChainsIntactNext(before, r);
    TracksFor(states, before, r.call);
    TracksNext(states, before, r);
    SeenNext(seen, before, r);
    if r.id in seen ==> seen[r.id] == r.hash {
      SeenGrows(seen, before, r);
    }
    if ChainsIntact(rows) && IdsConsistent(rows) {
      IntactPrefix(rows, i + 1);
    }
  }

  lemma TracksFor(states: map<string, Tail>, rows: seq<Revision>, call: string)
    requires Tracks(states, rows)
    ensures TailIn(states, call) == TailOf(Of(rows, call))
  {
  }

  lemma PassedTail(rows: seq<Revision>, i: nat, states: map<string, Tail>, seen: map<string, string>, call: string)
    requires i <= |rows| && Passed(rows, i, states, seen)
    ensures call in states ==> states[call].number > 0
  {
    hide Of;
    hide ChainIntact;
    hide SeenIds;
    TracksFor(states, rows[..i], call);
    assert ChainIntact(Of(rows[..i], call));
    if Of(rows[..i], call) != [] {
      ChainNumbers(Of(rows[..i], call), |Of(rows[..i], call)| - 1);
    }
  }

  lemma PassedAll(rows: seq<Revision>, states: map<string, Tail>, seen: map<string, string>)
    requires Passed(rows, |rows|, states, seen)
    ensures ChainsIntact(rows) && IdsConsistent(rows)
  {
    assert rows[..|rows|] == rows;
  }

  // The first loop of verifyAllocationRevisionChain: one state per call, the zero
  // state for a call not yet seen.
  method VerifyLinks(rows: seq<Revision>) returns (r: Result<()>)
    ensures r.Ok? <==> ChainsIntact(rows) && IdsConsistent(rows)
  {
    hide ChainsIntact;
    hide IdsConsistent;
    hide Passed;
    var states: map<string, Tail> := map[];
    var seen: map<string, string> := map[];
    PassedStart(rows);
    for i := 0 to |rows|
      invariant Passed(rows, i, states, seen)
    {
      var row := rows[i];
      PassedNext(rows, i, states, seen);
      PassedTail(rows, i, states, seen, row.call);
      if row.hash == "" {
        return Err("allocation revision hash is missing");
      }
      var prior := if row.call in states then states[row.call] else Tail("", "", 0);
      if prior.number == 0 {
        if row.number != 1 || row.parent != "" || row.previousHash != "" {
          return Err("allocation revision chain starts with an invalid parent");
        }
      } else if row.number != prior.number + 1 || row.parent != prior.previousId
          || row.previousHash != prior.previousHash {
        return Err("allocation revision chain is broken");
      }
      if row.id in seen && seen[row.id] != row.hash {
        return Err("allocation revision has inconsistent hash");
      }
      seen := seen[row.id := row.hash];
      states := states[row.call := Tail(row.id, row.hash, row.number)];
    }
    PassedAll(rows, states, seen);
    r := Ok(());
  }

  // ---- the contents of revisions ------------------------------------------------------

  // Hashing the entries as they are read back hashes them as they were written.
  lemma SortedHash(sha: Sha, projects: map<string, string>, r: Revision)
    ensures RevisionHash(sha, r.(entries := Sorted(projects, r.entries)), r.previousHash) ==
            RevisionHash(sha, r, r.previousHash)
  {
    hide EntriesText;
    hide LengthSafeFields;
    SortMultiset(EntryOrder(projects), r.entries);
    EntriesTextExact(Sorted(projects, r.entries), r.entries);
  }

  // The loop of verifyAllocationRevisionContents.
  method VerifyContents(sha: Sha, projects: map<string, string>, rows: seq<Revision>) returns (r: Result<()>)
    ensures r.Ok? <==> ContentsIntact(sha, rows)
  {
    hide RevisionHash;
    hide Sorted;
    for i := 0 to |rows|
      invariant ContentsIntact(sha, rows[..i])
    {
      var row := rows[i];
      SortedHash(sha, projects, row);
      var want := RevisionHash(sha, row.(entries := Sorted(projects, row.entries)), row.previousHash);
      if want != row.hash {
        return Err("allocation revision hash does not match content");
      }
    }
    assert rows[..|rows|] == rows;
    r := Ok(());
  }

  // ---- the projection and the heads ---------------------------------------------------

  lemma {:induction false} ImageNext<A, B>(f: A -> B, s: seq<A>, i: nat)
    requires i < |s|
    ensures Image(f, s[..i + 1]) == Image(f, s[..i]) + [f(s[i])]
  {
    assert s[..i + 1][..i] == s[..i];
  }

  method ActualTexts(slots: seq<Slot>) returns (actual: seq<string>)
    ensures actual == Image(SlotText, slots)
  {
    hide SlotText;
    actual := [];
    for i := 0 to |slots|
      invariant actual == Image(SlotText, slots[..i])
    {
      ImageNext(SlotText, slots, i);
      actual := actual + [SlotText(slots[i])];
    }
    assert slots[..|slots|] == slots;
  }

  method ExpectedTexts(allocations: seq<Entry>) returns (expected: seq<string>)
    ensures expected == Image(SlotText, SlotsOf(allocations))
  {
    hide SlotText;
    expected := [];
    for ordinal := 0 to |allocations|
      invariant expected == Image(SlotText, SlotsOf(allocations)[..ordinal])
    {
      ImageNext(SlotText, SlotsOf(allocations), ordinal);
      SlotAt(allocations, ordinal);
      expected := expected + [SlotText(Slot(ordinal, allocations[ordinal]))];
    }
    assert SlotsOf(allocations)[..|allocations|] == SlotsOf(allocations);
  }

  // The comparison of one call's projection with its latest revision.
  method CompareProjection(projects: map<string, string>, slots: seq<Slot>, entries: seq<Entry>) returns (r: Result<()>)
    ensures r.Ok? <==> ProjectionMatches(projects, slots, entries)
  {
    hide EntryOrder;
    hide SlotText;
    hide StringLe;
    hide Sort;
    hide SlotsOf;
    hide Image;
    var allocations := Sorted(projects, entries);
    SortMultiset(EntryOrder(projects), entries);
    if |slots| != |allocations| {
      return Err("allocation projection does not match latest revision");
    }
    var actual := ActualTexts(slots);
    var expected := ExpectedTexts(allocations);
    SortMultiset(StringLe, actual);
    SortMultiset(StringLe, expected);
    actual := Sort(StringLe, actual);
    expected := Sort(StringLe, expected);
    for i := 0 to |expected|
      invariant forall k :: 0 <= k < i ==> actual[k] == expected[k]
    {
      if actual[i] != expected[i] {
        return Err("allocation projection entry does not match latest revision");
      }
    }
    r := Ok(());
  }

  // No row of the same call has a greater number.
  predicate Latest(rows: seq<Revision>, r: Revision) {
    forall q :: q in rows && q.call == r.call ==> q.number <= r.number
  }

  predicate RowProjected(b: Books, rows: seq<Revision>, r: Revision) {
    Latest(rows, r) ==> ProjectionMatches(b.projects, SlotsFor(b, r.call), r.entries)
  }

  // verifyAllocationProjection: rows that have a successor are skipped.
  method VerifyProjection(b: Books, rows: seq<Revision>) returns (r: Result<()>)
    ensures r.Ok? <==> forall k :: 0 <= k < |rows| ==> RowProjected(b, b.history, rows[k])
  {
    hide ProjectionMatches;
    hide SlotsFor;
    for i := 0 to |rows|
      invariant forall k :: 0 <= k < i ==> RowProjected(b, b.history, rows[k])
    {
      var row := rows[i];
      var later := 0;
      for j := 0 to |b.history|
        invariant later >= 0
        invariant later == 0 <==> forall k :: 0 <= k < j && b.history[k].call == row.call ==>
                    b.history[k].number <= row.number
      {
        if b.history[j].call == row.call && b.history[j].number > row.number {
          later := later + 1;
        }
      }
      if later == 0 {
        var compared := CompareProjection(b.projects, SlotsFor(b, row.call), row.entries);
        if compared.Err? {
          assert !RowProjected(b, b.history, rows[i]);
          return compared;
        }
      }
    }
    r := Ok(());
  }

  // verifyAllocationRevisionHeads over the covered heads.
  method VerifyHeads(b: Books, calls: seq<string>) returns (r: Result<()>)
    requires forall k :: 0 <= k < |calls| ==> calls[k] in b.heads
    ensures r.Ok? <==> forall k :: 0 <= k < |calls| ==> HeadMatches(b, calls[k])
  {
    hide Of;
    for i := 0 to |calls|
      invariant forall k :: 0 <= k < i ==> HeadMatches(b, calls[k])
    {
      var latest := Last(Of(b.history, calls[i]));
      if latest.None? {
        return Err("allocation revision head references deleted history");
      }
      if latest.value.id != b.heads[calls[i]].revisionId || latest.value.hash != b.heads[calls[i]].hash {
        return Err("allocation revision head does not match terminal revision");
      }
    }
    r := Ok(());
  }

  // ---- all of it ---------------------------------------------------------------------

  ghost predicate HeadsListed(b: Books, session: string, calls: seq<string>) {
    forall call :: call in calls <==> call in b.heads && Covers(b, session, call)
  }

  lemma ListedRow(b: Books, session: string, rows: seq<Revision>, r: Revision)
    requires Listing(b, session, rows)
    ensures r in rows <==> r in b.history && Covers(b, session, r.call)
  {
    hide Covers;
    OfMembers(rows, r.call);
    OfMembers(b.history, r.call);
    assert Of(rows, r.call) == if Covers(b, session, r.call) then Of(b.history, r.call) else [];
  }

  // In an intact chain only the last revision has no successor.
  lemma LatestIsLast(history: seq<Revision>, call: string, k: nat)
    requires ChainIntact(Of(history, call)) && k < |Of(history, call)|
    ensures Latest(history, Of(history, call)[k]) <==> k == |Of(history, call)| - 1
  {
    hide Of;
    hide ChainIntact;
    var mine := Of(history, call);
    OfMembers(history, call);
    ChainNumbers(mine, k);
    ChainNumbers(mine, |mine| - 1);
    assert mine[k] in mine && mine[|mine| - 1] in mine;
    forall q | q in history && q.call == call ensures q.number <= |mine| {
      assert q in mine;
      var j: nat :| j < |mine| && mine[j] == q;
      ChainNumbers(mine, j);
    }
  }

  // What the loops accept of one call, put together.
  lemma CallChecked(sha: Sha, b: Books, session: string, rows: seq<Revision>, calls: seq<string>, call: string)
    requires Listing(b, session, rows) && HeadsListed(b, session, calls)
    requires ChainsIntact(rows) && ContentsIntact(sha, rows)
    requires forall k :: 0 <= k < |rows| ==> RowProjected(b, b.history, rows[k])
    requires forall k :: 0 <= k < |calls| ==> HeadMatches(b, calls[k])
    requires Covers(b, session, call)
    ensures CallVerifies(sha, b, call)
  {
    hide Covers;
    hide Of;
    hide ChainIntact;
    hide RevisionHash;
    hide ProjectionMatches;
    hide SlotsFor;
    var mine := Of(b.history, call);
    assert mine == Of(rows, call) && ChainIntact(Of(rows, call));
    OfMembers(rows, call);
    forall k | 0 <= k < |mine| ensures mine[k].hash == RevisionHash(sha, mine[k], mine[k].previousHash) {
      assert mine[k] in rows;
    }
    if mine != [] {
      LatestIsLast(b.history, call, |mine| - 1);
      assert mine[|mine| - 1] in mine;
      assert mine[|mine| - 1] in rows;
    }
    if call in b.heads {
      assert call in calls;
    } else {
      assert HeadMatches(b, call);
    }
  }

  lemma CallRefused(sha: Sha, b: Books, session: string, rows: seq<Revision>, calls: seq<string>)
    requires Listing(b, session, rows) && HeadsListed(b, session, calls)
    requires AllocationsVerify(sha, b, session)
    ensures ChainsIntact(rows) && IdsConsistent(rows) && ContentsIntact(sha, rows)
    ensures forall k :: 0 <= k < |rows| ==> RowProjected(b, b.history, rows[k])
    ensures forall k :: 0 <= k < |calls| ==> HeadMatches(b, calls[k])
  {
    hide Covers;
    hide Of;
    hide ChainIntact;
    hide RevisionHash;
    hide ProjectionMatches;
    hide HeadMatches;
    hide SlotsFor;
    hide Listing;
    forall call ensures ChainIntact(Of(rows, call)) {
      ListedCall(b, session, rows, call);
      if Covers(b, session, call) {
        assert CallVerifies(sha, b, call);
      }
    }
    forall r, q | r in rows && q in rows && r.id == q.id ensures r.hash == q.hash {
      ListedRow(b, session, rows, r);
      ListedRow(b, session, rows, q);
    }
    forall k | 0 <= k < |rows|
      ensures rows[k].hash == RevisionHash(sha, rows[k], rows[k].previousHash)
      ensures RowProjected(b, b.history, rows[k])
    {
      RowChecked(sha, b, session, rows, rows[k]);
    }
    forall k | 0 <= k < |calls| ensures HeadMatches(b, calls[k]) {
      assert calls[k] in calls;
      assert CallVerifies(sha, b, calls[k]);
    }
  }

  lemma ListedCall(b: Books, session: string, rows: seq<Revision>, call: string)
    requires Listing(b, session, rows)
    ensures Of(rows, call) == if Covers(b, session, call) then Of(b.history, call) else []
    ensures ChainIntact([])
  {
  }

  lemma RowChecked(sha: Sha, b: Books, session: string, rows: seq<Revision>, r: Revision)
    requires Listing(b, session, rows) && AllocationsVerify(sha, b, session) && r in rows
    ensures r.hash == RevisionHash(sha, r, r.previousHash) && RowProjected(b, b.history, r)
  {
    hide Covers;
    hide Of;
    hide ChainIntact;
    hide RevisionHash;
    hide ProjectionMatches;
    hide HeadMatches;
    hide SlotsFor;
    hide Listing;
    hide CoveredIdsConsistent;
    hide Latest;
    ListedRow(b, session, rows, r);
    assert CallVerifies(sha, b, r.call);
    var mine := Of(b.history, r.call);
    OfMembers(b.history, r.call);
    assert r in mine;
    var k: nat :| k < |mine| && mine[k] == r;
    LatestIsLast(b.history, r.call, k);
  }

  // verifyAllocationRevisionChain: the loops together accept exactly the tables
  // whose covered calls verify.
  method VerifyAllocationRevisionChain(sha: Sha, b: Books, ghost session: string, rows: seq<Revision>,
      calls: seq<string>)
    returns (r: Result<()>)
    requires Listing(b, session, rows) && HeadsListed(b, session, calls)
    ensures r.Ok? <==> AllocationsVerify(sha, b, session)
  {
    hide Listing;
    hide HeadsListed;
    hide ChainsIntact;
    hide IdsConsistent;
    hide ContentsIntact;
    hide RowProjected;
    hide HeadMatches;
    hide AllocationsVerify;
    if AllocationsVerify(sha, b, session) {
      CallRefused(sha, b, session, rows, calls);
    }
    HeadsExist(b, session, calls);
    r := VerifyLinks(rows);
    if r.Err? {
      return;
    }
    r := VerifyContents(sha, b.projects, rows);
    if r.Err? {
      return;
    }
    r := VerifyProjection(b, rows);
    if r.Err? {
      return;
    }
    r := VerifyHeads(b, calls);
    if r.Err? {
      return;
    }
    AllChecked(sha, b, session, rows, calls);
  }

  lemma HeadsExist(b: Books, session: string, calls: seq<string>)
    requires HeadsListed(b, session, calls)
    ensures forall k :: 0 <= k < |calls| ==> calls[k] in b.heads
  {
    hide Covers;
    forall k | 0 <= k < |calls| ensures calls[k] in b.heads {
      assert calls[k] in calls;
    }
  }

  lemma AllChecked(sha: Sha, b: Books, session: string, rows: seq<Revision>, calls: seq<string>)
    requires Listing(b, session, rows) && HeadsListed(b, session, calls)
    requires ChainsIntact(rows) && IdsConsistent(rows) && ContentsIntact(sha, rows)
    requires forall k :: 0 <= k < |rows| ==> RowProjected(b, b.history, rows[k])
    requires forall k :: 0 <= k < |calls| ==> HeadMatches(b, calls[k])
    ensures AllocationsVerify(sha, b, session)
  {
    hide Listing;
    hide HeadsListed;
    hide ChainsIntact;
    hide ContentsIntact;
    hide RowProjected;
    hide HeadMatches;
    hide CallVerifies;
    hide Covers;
    forall call | Covers(b, session, call) ensures CallVerifies(sha, b, call) {
      CallChecked(sha, b, session, rows, calls, call);
    }
    forall r, q | r in b.history && q in b.history && Covers(b, session, r.call) && Covers(b, session, q.call)
        && r.id == q.id
      ensures r.hash == q.hash
    {
      ListedRow(b, session, rows, r);
      ListedRow(b, session, rows, q);
    }
  }
}
