/** Ledger anchors: the head of every chain, exported at one time and compared
    with the ledger at another (internal/storage/sqlite/store.go). */
module Anchors {
  import opened Basics
  import opened Text
  import opened AuditChain
  import opened RawLedger
  import opened LedgerRuns

  datatype Anchor = Anchor(source: string, session: string, headHash: string, events: nat, lastSeen: int)

  datatype Mismatch = Mismatch(source: string, session: string, expected: string, actual: string, truncated: bool)

  function KeyOf(e: RawEvent): string {
    ChainKey(e.body.source, e.body.session)
  }

  // ORDER BY source, session, created_at DESC, id DESC.
  predicate ListedBefore(e: RawEvent, f: RawEvent) {
    if e.body.source != f.body.source then StringLe(e.body.source, f.body.source)
    else if e.body.session != f.body.session then StringLe(e.body.session, f.body.session)
    else if e.createdAt != f.createdAt then e.createdAt > f.createdAt
    else StringLe(f.id, e.id)
  }

  // The rows the anchor query returns for a table.
  predicate Listing(events: seq<RawEvent>, rows: seq<RawEvent>) {
    && multiset(rows) == multiset(events)
    && forall i, j :: 0 <= i < j < |rows| ==> ListedBefore(rows[i], rows[j])
  }

  // COUNT(*) and MAX(created_at) over one source and session.
  function Count(events: seq<RawEvent>, source: string, session: string): nat {
    if events == [] then 0
    else
      Count(events[..|events| - 1], source, session)
      + if InChain(events[|events| - 1], source, session) then 1 else 0
  }

  function LastSeen(events: seq<RawEvent>, source: string, session: string): int {
    if events == [] then 0
    else
      var init, last := events[..|events| - 1], events[|events| - 1];
      if !InChain(last, source, session) then LastSeen(init, source, session)
      else if Count(init, source, session) == 0 then last.createdAt
      else Max(LastSeen(init, source, session), last.createdAt)
  }

  function AnchorOf(events: seq<RawEvent>, e: RawEvent): Anchor {
    Anchor(e.body.source, e.body.session, e.hash, Count(events, e.body.source, e.body.session),
           LastSeen(events, e.body.source, e.body.session))
  }

  // The first listed row of each key.
  function FirstRow(rows: seq<RawEvent>, key: string): Option<RawEvent> {
    if rows == [] then None
    else
      var earlier, last := FirstRow(rows[..|rows| - 1], key), rows[|rows| - 1];
      if earlier.Some? then earlier else if KeyOf(last) == key then Some(last) else None
  }

  function FirstPerKey(events: seq<RawEvent>, rows: seq<RawEvent>): seq<Anchor> {
    if rows == [] then []
    else
      var init, last := rows[..|rows| - 1], rows[|rows| - 1];
      FirstPerKey(events, init) + if FirstRow(init, KeyOf(last)).Some? then [] else [AnchorOf(events, last)]
  }

  // LedgerAnchors over the query's rows.
  method LedgerAnchors(events: seq<RawEvent>, rows: seq<RawEvent>) returns (out: seq<Anchor>)
    ensures out == FirstPerKey(events, rows)
  {
    hide ChainKey;
    hide AnchorOf;
    var seen: set<string> := {};
    out := [];
    for i := 0 to |rows|
      invariant forall key :: key in seen <==> FirstRow(rows[..i], key).Some?
      invariant out == FirstPerKey(events, rows[..i])
    {
      var e := rows[i];
      assert rows[..i + 1][..i] == rows[..i];
      var key := KeyOf(e);
      if key !in seen {
        seen := seen + {key};
        out := out + [AnchorOf(events, e)];
      }
    }
    assert rows[..|rows|] == rows;
  }

  function KeyOfAnchor(a: Anchor): string {
    ChainKey(a.source, a.session)
  }

  // The map of current anchors; a later entry replaces an earlier one.
  function Lookup(anchors: seq<Anchor>, key: string): Option<Anchor> {
    if anchors == [] then None
    else
      var last := anchors[|anchors| - 1];
      if KeyOfAnchor(last) == key then Some(last) else Lookup(anchors[..|anchors| - 1], key)
  }

  // How one expected anchor compares with the current ones.
  function Compare(current: seq<Anchor>, a: Anchor): seq<Mismatch> {
    match Lookup(current, KeyOfAnchor(a))
    case None => [Mismatch(a.source, a.session, a.headHash, "", true)]
    case Some(got) =>
      if got.headHash == a.headHash then []
      else [Mismatch(a.source, a.session, a.headHash, got.headHash, got.events < a.events)]
  }

  function Mismatches(current: seq<Anchor>, expected: seq<Anchor>): seq<Mismatch> {
    if expected == [] then []
    else Mismatches(current, expected[..|expected| - 1]) + Compare(current, expected[|expected| - 1])
  }

  ghost predicate MapsTo(m: map<string, Anchor>, anchors: seq<Anchor>) {
    forall key :: (key in m <==> Lookup(anchors, key).Some?) && (key in m ==> Lookup(anchors, key) == Some(m[key]))
  }

  // VerifyAnchors against the current ledger.
  method VerifyAnchors(events: seq<RawEvent>, rows: seq<RawEvent>, expected: seq<Anchor>)
      returns (mismatches: seq<Mismatch>)
    ensures mismatches == Mismatches(FirstPerKey(events, rows), expected)
  {
    hide FirstPerKey;
    hide ChainKey;
    var current := LedgerAnchors(events, rows);
    var currentMap := MapAnchors(current);
    mismatches := [];
    for i := 0 to |expected|
      invariant mismatches == Mismatches(current, expected[..i])
    {
      var exp := expected[i];
      assert expected[..i + 1][..i] == expected[..i];
      var key := KeyOfAnchor(exp);
      if key !in currentMap {
        mismatches := mismatches + [Mismatch(exp.source, exp.session, exp.headHash, "", true)];
      } else {
        var got := currentMap[key];
        if got.headHash != exp.headHash {
          mismatches := mismatches + [Mismatch(exp.source, exp.session, exp.headHash, got.headHash,
              got.events < exp.events)];
        }
      }
    }
    assert expected[..|expected|] == expected;
  }

  method MapAnchors(anchors: seq<Anchor>) returns (m: map<string, Anchor>)
    ensures MapsTo(m, anchors)
  {
    hide ChainKey;
    m := map[];
    for i := 0 to |anchors|
      invariant MapsTo(m, anchors[..i])
    {
      assert anchors[..i + 1][..i] == anchors[..i];
      m := m[KeyOfAnchor(anchors[i]) := anchors[i]];
    }
    assert anchors[..|anchors|] == anchors;
  }

  // ---- what the anchors say of a ledger ------------------------------------------------

  lemma {:induction false} FirstRowFirst(rows: seq<RawEvent>, key: string)
    ensures FirstRow(rows, key).Some? ==>
            exists k :: 0 <= k < |rows| && FirstRow(rows, key) == Some(rows[k]) && KeyOf(rows[k]) == key
                        && forall j :: 0 <= j < k ==> KeyOf(rows[j]) != key
    ensures FirstRow(rows, key).None? ==> forall j :: 0 <= j < |rows| ==> KeyOf(rows[j]) != key
  {
    hide KeyOf;
    if rows != [] {
      var init := rows[..|rows| - 1];
      FirstRowFirst(init, key);
      assert forall j :: 0 <= j < |init| ==> init[j] == rows[j];
    }
  }

  lemma {:induction false} LookupIsFirstRow(events: seq<RawEvent>, rows: seq<RawEvent>, key: string)
    ensures Lookup(FirstPerKey(events, rows), key) ==
            if FirstRow(rows, key).Some? then Some(AnchorOf(events, FirstRow(rows, key).value)) else None
    ensures FirstRow(rows, key).Some? ==> KeyOf(FirstRow(rows, key).value) == key
  {
    hide ChainKey;
    hide Count;
    hide LastSeen;
    if rows != [] {
      var init, last := rows[..|rows| - 1], rows[|rows| - 1];
      LookupIsFirstRow(events, init, key);
      var anchors := FirstPerKey(events, init);
      assert (anchors + [AnchorOf(events, last)])[..|anchors|] == anchors;
      assert anchors + [] == anchors;
    }
  }

  // Every listed anchor is the one found under its key.
  lemma {:induction false} AnchorIsFirstRow(events: seq<RawEvent>, rows: seq<RawEvent>, a: Anchor)
    requires a in FirstPerKey(events, rows)
    ensures exists key :: FirstRow(rows, key).Some? && a == AnchorOf(events, FirstRow(rows, key).value)
  {
    hide ChainKey;
    hide Count;
    hide LastSeen;
    if rows != [] {
      var init, last := rows[..|rows| - 1], rows[|rows| - 1];
      if a in FirstPerKey(events, init) {
        AnchorIsFirstRow(events, init, a);
        var key :| FirstRow(init, key).Some? && a == AnchorOf(events, FirstRow(init, key).value);
        assert FirstRow(rows, key) == FirstRow(init, key);
      } else {
        assert FirstRow(rows, KeyOf(last)) == Some(last);
      }
    }
  }

  lemma NewerIsTransitive(e: RawEvent, f: RawEvent, g: RawEvent)
    requires Newer(e, f) && Newer(f, g)
    ensures Newer(e, g)
  {
    hide StringLe;
    if e.createdAt == f.createdAt == g.createdAt {
      StringLeTotal(e.id, f.id);
      StringLeTransitive(g.id, f.id, e.id);
    }
  }

  lemma {:induction false} HeadIsNewest(events: seq<RawEvent>, source: string, session: string)
    ensures forall k :: 0 <= k < |events| && InChain(events[k], source, session) ==>
              HeadFor(events, source, session).Some? && !Newer(events[k], HeadFor(events, source, session).value)
  {
    hide StringLe;
    if events != [] {
      var init, last := events[..|events| - 1], events[|events| - 1];
      HeadIsNewest(init, source, session);
      forall k | 0 <= k < |init| && InChain(init[k], source, session)
        ensures HeadFor(events, source, session).Some? && !Newer(init[k], HeadFor(events, source, session).value)
      {
        var best := HeadFor(init, source, session);
        if InChain(last, source, session) && Newer(last, best.value) && Newer(init[k], last) {
          NewerIsTransitive(init[k], last, best.value);
        }
      }
      assert forall k :: 0 <= k < |init| ==> init[k] == events[k];
    }
  }

  lemma ListingMembers(events: seq<RawEvent>, rows: seq<RawEvent>, e: RawEvent)
    requires Listing(events, rows)
    ensures e in rows <==> e in events
  {
    assert e in multiset(rows) <==> e in multiset(events);
  }

  // No two rows have both time and id in common; ids are a primary key.
  predicate RowsDiffer(events: seq<RawEvent>) {
    forall i, j :: 0 <= i < j < |events| ==> events[i].createdAt != events[j].createdAt || events[i].id != events[j].id
  }

  lemma SameKeysSameRow(events: seq<RawEvent>, e: RawEvent, f: RawEvent)
    requires RowsDiffer(events) && e in events && f in events && e.createdAt == f.createdAt && e.id == f.id
    ensures e == f
  {
    var i :| 0 <= i < |events| && events[i] == e;
    var j :| 0 <= j < |events| && events[j] == f;
    assert i == j;
  }

  // What anchors need of a ledger: it verifies, and the newest row of each chain is
  // its last. Any clock that does not step back across a chain's head will do.
  ghost predicate Anchorable(sha: Sha, l: Ledger) {
    && LedgerVerifies(sha, l.events, "") && SourcesNulFree(l.events) && RowsDiffer(l.events)
    && forall source, session :: NulFree(source) ==> HeadIsChainEnd(l.events, source, session)
  }

  lemma WellKeptIsAnchorable(sha: Sha, l: Ledger)
    requires WellKept(sha, l)
    ensures Anchorable(sha, l)
  {
    hide LedgerVerifies;
    hide HeadIsChainEnd;
    hide NulFree;
    forall source, session | NulFree(source) ensures HeadIsChainEnd(l.events, source, session) {
      ClockOrderedHead(l.events, source, session);
    }
  }

  lemma RowIsNulFree(events: seq<RawEvent>, e: RawEvent)
    requires SourcesNulFree(events) && e in events
    ensures NulFree(e.body.source)
  {
  }

  // The row listed first for a chain is the one AppendRawEvent takes for its head.
  lemma FirstIsHead(events: seq<RawEvent>, rows: seq<RawEvent>, source: string, session: string)
    requires Listing(events, rows) && RowsDiffer(events) && SourcesNulFree(events) && NulFree(source)
    ensures FirstRow(rows, ChainKey(source, session)) == HeadFor(events, source, session)
  {
    hide FirstRow;
    hide HeadFor;
    hide ChainKey;
    hide RowsDiffer;
    hide SourcesNulFree;
    hide StringLe;
    hide NulFree;
    var key := ChainKey(source, session);
    var head := HeadFor(events, source, session);
    FirstRowFirst(rows, key);
    HeadIsRow(events, source, session);
    HeadIsNewest(events, source, session);
    if head.Some? {
      ListingMembers(events, rows, head.value);
    }
    if FirstRow(rows, key).Some? {
      var k: nat :| k < |rows| && FirstRow(rows, key) == Some(rows[k]) && KeyOf(rows[k]) == key
                    && forall j :: 0 <= j < k ==> KeyOf(rows[j]) != key;
      ListingMembers(events, rows, rows[k]);
      RowIsNulFree(events, rows[k]);
      ChainKeyInjective(rows[k].body.source, rows[k].body.session, source, session);
      var i: nat :| i < |events| && events[i] == rows[k];
      var j: nat :| j < |rows| && rows[j] == head.value;
      assert k <= j;
      assert k < j ==> ListedBefore(rows[k], rows[j]);
      if k < j { SameKeysSameRow(events, rows[k], head.value); }
    }
  }

  // The records of one source and session.
  function ChainRecords(events: seq<RawEvent>, source: string, session: string): seq<Record> {
    Chain(Records(events), ChainKey(source, session))
  }

  // A chain's head hash determines all its hashed fields.
  lemma HeadDeterminesChain(sha: Sha, l: Ledger, m: Ledger, source: string, session: string)
    requires Digesting(sha) && Anchorable(sha, l) && Anchorable(sha, m) && NulFree(source)
    ensures var a, b := HeadFor(l.events, source, session), HeadFor(m.events, source, session);
            && (a.None? <==> ChainRecords(l.events, source, session) == [])
            && (a.Some? ==> ((b.Some? && a.value.hash == b.value.hash) <==>
                             ChainRecords(l.events, source, session) == ChainRecords(m.events, source, session)))
  {
    hide HeadFor;
    hide ChainEndFor;
    hide Chain;
    hide Records;
    hide LastHash;
    hide Verifies;
    hide ChainKey;
    hide RowsVerify;
    var key := ChainKey(source, session);
    AnchorableChain(sha, l, source, session);
    AnchorableChain(sha, m, source, session);
    LastHashDeterminesChain(sha, ChainRecords(l.events, source, session), ChainRecords(m.events, source, session), key);
  }

  lemma AnchorableChain(sha: Sha, l: Ledger, source: string, session: string)
    requires Digesting(sha) && Anchorable(sha, l) && NulFree(source)
    ensures var head, chain := HeadFor(l.events, source, session), ChainRecords(l.events, source, session);
            && Verifies(sha, chain) && OneSession(chain, ChainKey(source, session))
            && LastHash(chain, ChainKey(source, session)) == (if head.Some? then head.value.hash else "")
            && (head.Some? ==> head.value.hash != "")
            && (head.None? <==> chain == [])
  {
    hide HeadFor;
    hide ChainEndFor;
    hide Chain;
    hide Records;
    hide LastHash;
    hide Verifies;
    hide ChainKey;
    hide InSequence;
    var key := ChainKey(source, session);
    assert HeadIsChainEnd(l.events, source, session);
    ChainEndHash(l.events, key);
    ChainHasLastHash(Records(l.events), key);
    VerifiesPerSession(sha, Records(l.events));
    EmptyChain(sha, ChainRecords(l.events, source, session), key);
    HeadIsRow(l.events, source, session);
    if HeadFor(l.events, source, session).Some? {
      RowHash(sha, l.events, HeadFor(l.events, source, session).value);
    }
  }

  // ---- what a comparison reports -------------------------------------------------------

  lemma {:induction false} NoMismatches(current: seq<Anchor>, expected: seq<Anchor>)
    ensures Mismatches(current, expected) == [] <==> forall a :: a in expected ==> Compare(current, a) == []
  {
    hide Compare;
    if expected != [] {
      var init, last := expected[..|expected| - 1], expected[|expected| - 1];
      assert expected == init + [last];
      NoMismatches(current, init);
    }
  }

  lemma {:induction false} MismatchReported(current: seq<Anchor>, expected: seq<Anchor>, a: Anchor)
    requires a in expected
    ensures forall m :: m in Compare(current, a) ==> m in Mismatches(current, expected)
  {
    hide Compare;
    var init := expected[..|expected| - 1];
    if a in init {
      MismatchReported(current, init, a);
    }
  }

  // The anchor of a chain, in any listing of the ledger.
  lemma LookupIsHead(sha: Sha, l: Ledger, rows: seq<RawEvent>, source: string, session: string)
    requires Anchorable(sha, l) && Listing(l.events, rows) && NulFree(source)
    ensures var head := HeadFor(l.events, source, session);
            Lookup(FirstPerKey(l.events, rows), ChainKey(source, session)) ==
            if head.Some? then Some(AnchorOf(l.events, head.value)) else None
  {
    hide HeadFor;
    hide FirstPerKey;
    hide Lookup;
    hide FirstRow;
    hide AnchorOf;
    hide LedgerVerifies;
    FirstIsHead(l.events, rows, source, session);
    LookupIsFirstRow(l.events, rows, ChainKey(source, session));
  }

  // Main result: compared with the anchors of one ledger, another one
  // shows no mismatch exactly when every anchored chain is equal record for
  // record.
  lemma AnchorsMatchExactly(sha: Sha, l: Ledger, rows: seq<RawEvent>, m: Ledger, others: seq<RawEvent>)
    requires Digesting(sha) && Anchorable(sha, l) && Anchorable(sha, m)
    requires Listing(l.events, rows) && Listing(m.events, others)
    ensures Mismatches(FirstPerKey(m.events, others), FirstPerKey(l.events, rows)) == [] <==>
            forall source, session :: NulFree(source) && HeadFor(l.events, source, session).Some? ==>
              ChainRecords(l.events, source, session) == ChainRecords(m.events, source, session)
  {
    hide FirstPerKey;
    hide Compare;
    hide HeadFor;
    hide ChainRecords;
    hide Anchorable;
    hide Listing;
    var current, expected := FirstPerKey(m.events, others), FirstPerKey(l.events, rows);
    NoMismatches(current, expected);
    if Mismatches(current, expected) == [] {
      forall source, session | NulFree(source) && HeadFor(l.events, source, session).Some?
        ensures ChainRecords(l.events, source, session) == ChainRecords(m.events, source, session)
      {
        ChainCompared(sha, l, rows, m, others, source, session);
      }
    }
    if forall source, session :: NulFree(source) && HeadFor(l.events, source, session).Some? ==>
         ChainRecords(l.events, source, session) == ChainRecords(m.events, source, session) {
      forall a | a in expected ensures Compare(current, a) == [] {
        AnchorNamesChain(sha, l, rows, a);
        ChainCompared(sha, l, rows, m, others, a.source, a.session);
      }
    }
  }

  // One anchored chain: its anchor is in the list, and its comparison is silent
  // exactly when the chain is unchanged.
  lemma ChainCompared(sha: Sha, l: Ledger, rows: seq<RawEvent>, m: Ledger, others: seq<RawEvent>, source: string,
      session: string)
    requires Digesting(sha) && Anchorable(sha, l) && Anchorable(sha, m)
    requires Listing(l.events, rows) && Listing(m.events, others)
    requires NulFree(source) && HeadFor(l.events, source, session).Some?
    ensures var a := AnchorOf(l.events, HeadFor(l.events, source, session).value);
            && a in FirstPerKey(l.events, rows) && a.source == source && a.session == session
            && (Compare(FirstPerKey(m.events, others), a) == [] <==>
                ChainRecords(l.events, source, session) == ChainRecords(m.events, source, session))
  {
    hide FirstPerKey;
    hide Lookup;
    hide HeadFor;
    hide ChainRecords;
    hide Anchorable;
    hide Listing;
    hide Count;
    hide LastSeen;
    hide ChainKey;
    LookupIsHead(sha, l, rows, source, session);
    LookupIsHead(sha, m, others, source, session);
    HeadIsRow(l.events, source, session);
    HeadIsRow(m.events, source, session);
    HeadDeterminesChain(sha, l, m, source, session);
    LookupMember(FirstPerKey(l.events, rows), ChainKey(source, session));
  }

  lemma {:induction false} LookupMember(anchors: seq<Anchor>, key: string)
    ensures Lookup(anchors, key).Some? ==> Lookup(anchors, key).value in anchors
  {
    hide ChainKey;
    if anchors != [] {
      LookupMember(anchors[..|anchors| - 1], key);
    }
  }

  // Every anchor is the anchor of a chain's head.
  lemma AnchorNamesChain(sha: Sha, l: Ledger, rows: seq<RawEvent>, a: Anchor)
    requires Anchorable(sha, l) && Listing(l.events, rows) && a in FirstPerKey(l.events, rows)
    ensures NulFree(a.source) && HeadFor(l.events, a.source, a.session).Some?
    ensures a == AnchorOf(l.events, HeadFor(l.events, a.source, a.session).value)
  {
    hide FirstPerKey;
    hide HeadFor;
    hide FirstRow;
    hide LedgerVerifies;
    hide RowsDiffer;
    hide SourcesNulFree;
    hide Count;
    hide LastSeen;
    hide ChainKey;
    AnchorIsFirstRow(l.events, rows, a);
    var key :| FirstRow(rows, key).Some? && a == AnchorOf(l.events, FirstRow(rows, key).value);
    var e := FirstRow(rows, key).value;
    FirstRowFirst(rows, key);
    assert e in rows;
    ListingMembers(l.events, rows, e);
    RowIsNulFree(l.events, e);
    FirstIsHead(l.events, rows, e.body.source, e.body.session);
  }

  lemma {:induction false} CountIsLength(events: seq<RawEvent>, source: string, session: string)
    requires SourcesNulFree(events) && NulFree(source)
    ensures Count(events, source, session) == |ChainRecords(events, source, session)|
  {
    hide ChainKey;
    hide Canonical;
    if events != [] {
      var init, last := events[..|events| - 1], events[|events| - 1];
      assert SourcesNulFree(init);
      CountIsLength(init, source, session);
      ChainKeyInjective(last.body.source, last.body.session, source, session);
      ChainNext(Records(init), ToRecord(last), ChainKey(source, session));
    }
  }

  // Main result for a changed chain: it is reported once, and as truncated exactly
  // when it has fewer records than were anchored. So a chain cut to a strict
  // prefix, or gone, is always reported as truncated.
  lemma ChangedChainIsReported(sha: Sha, l: Ledger, rows: seq<RawEvent>, m: Ledger, others: seq<RawEvent>,
                               source: string, session: string)
    requires Digesting(sha) && Anchorable(sha, l) && Anchorable(sha, m)
    requires Listing(l.events, rows) && Listing(m.events, others)
    requires NulFree(source) && ChainRecords(l.events, source, session) != []
    requires ChainRecords(l.events, source, session) != ChainRecords(m.events, source, session)
    ensures var current, expected := FirstPerKey(m.events, others), FirstPerKey(l.events, rows);
            var was, now := HeadFor(l.events, source, session), HeadFor(m.events, source, session);
            was.Some? && Mismatch(source, session, was.value.hash, if now.Some? then now.value.hash else "",
                                  |ChainRecords(m.events, source, session)| < |ChainRecords(l.events, source, session)|)
                         in Mismatches(current, expected)
  {
    hide FirstPerKey;
    hide Lookup;
    hide HeadFor;
    hide ChainRecords;
    hide Listing;
    hide Count;
    hide LastSeen;
    hide ChainKey;
    hide LedgerVerifies;
    hide RowsDiffer;
    hide Mismatches;
    HeadDeterminesChain(sha, l, m, source, session);
    HeadDeterminesChain(sha, m, l, source, session);
    ChainCompared(sha, l, rows, m, others, source, session);
    LookupIsHead(sha, m, others, source, session);
    HeadIsRow(m.events, source, session);
    CountIsLength(l.events, source, session);
    CountIsLength(m.events, source, session);
    var a := AnchorOf(l.events, HeadFor(l.events, source, session).value);
    MismatchReported(FirstPerKey(m.events, others), FirstPerKey(l.events, rows), a);
    assert |Compare(FirstPerKey(m.events, others), a)| == 1;
    assert Compare(FirstPerKey(m.events, others), a)[0] in Compare(FirstPerKey(m.events, others), a);
  }

  // ---- what an anchor holds --------------------------------------------------------------

  // Where the rows of one source and session are.
  function Places(events: seq<RawEvent>, source: string, session: string): set<int> {
    set i | 0 <= i < |events| && events[i].body.source == source && events[i].body.session == session
  }

  lemma PlacesNext(events: seq<RawEvent>, e: RawEvent, source: string, session: string)
    ensures Places(events + [e], source, session) ==
            Places(events, source, session)
            + if e.body.source == source && e.body.session == session then {|events|} else {}
    ensures |events| !in Places(events, source, session)
  {
    var after := events + [e];
    assert after[|events|] == e;
    assert forall i :: 0 <= i < |events| ==> after[i] == events[i];
  }

  // They are counted.
  lemma {:induction false} CountExactly(events: seq<RawEvent>, source: string, session: string)
    ensures Count(events, source, session) == |Places(events, source, session)|
  {
    hide Places;
    if events != [] {
      var init, last := events[..|events| - 1], events[|events| - 1];
      assert events == init + [last];
      CountExactly(init, source, session);
      PlacesNext(init, last, source, session);
    } else {
      NoPlaces(source, session);
    }
  }

  lemma NoPlaces(source: string, session: string)
    ensures Places([], source, session) == {}
  {
  }

  // And the time the last of them was received.
  lemma {:induction false} LastSeenExactly(events: seq<RawEvent>, source: string, session: string)
    ensures forall e :: e in events && e.body.source == source && e.body.session == session ==>
              e.createdAt <= LastSeen(events, source, session)
    ensures Count(events, source, session) > 0 ==>
              exists e :: e in events && e.body.source == source && e.body.session == session
                          && e.createdAt == LastSeen(events, source, session)
    ensures Count(events, source, session) == 0 <==>
            forall e :: e in events ==> !(e.body.source == source && e.body.session == session)
  {
    if events != [] {
      var init, last := events[..|events| - 1], events[|events| - 1];
      assert events == init + [last];
      LastSeenExactly(init, source, session);
    }
  }

  // An anchor speaks for its chain: its newest row's hash, how many rows it has, and when
  // the last of them came.
  predicate SpeaksFor(events: seq<RawEvent>, a: Anchor) {
    && HeadFor(events, a.source, a.session).Some? && a.headHash == HeadFor(events, a.source, a.session).value.hash
    && a.events == |Places(events, a.source, a.session)|
    && (forall e :: e in events && e.body.source == a.source && e.body.session == a.session ==>
          e.createdAt <= a.lastSeen)
    && exists e :: e in events && e.body.source == a.source && e.body.session == a.session && e.createdAt == a.lastSeen
  }

  lemma AnchorSpeaks(events: seq<RawEvent>, e: RawEvent)
    requires e in events && HeadFor(events, e.body.source, e.body.session) == Some(e)
    ensures SpeaksFor(events, AnchorOf(events, e))
  {
    hide HeadFor;
    CountExactly(events, e.body.source, e.body.session);
    LastSeenExactly(events, e.body.source, e.body.session);
  }

  // Main result on anchors: each chain of the ledger has exactly one, and every anchor
  // speaks for its chain.
  lemma AnchorsExactly(events: seq<RawEvent>, rows: seq<RawEvent>)
    requires Listing(events, rows) && RowsDiffer(events) && SourcesNulFree(events)
    ensures forall a :: a in FirstPerKey(events, rows) ==> SpeaksFor(events, a)
    ensures forall e :: e in events ==>
              exists a :: a in FirstPerKey(events, rows) && a.source == e.body.source && a.session == e.body.session
    ensures forall i, j :: 0 <= i < j < |FirstPerKey(events, rows)| ==>
              var a, b := FirstPerKey(events, rows)[i], FirstPerKey(events, rows)[j];
              a.source != b.source || a.session != b.session
  {
    hide FirstPerKey;
    hide Listing;
    hide RowsDiffer;
    hide SourcesNulFree;
    hide SpeaksFor;
    forall a | a in FirstPerKey(events, rows) ensures SpeaksFor(events, a) {
      ListedAnchorSpeaks(events, rows, a);
    }
    forall e | e in events
      ensures exists a :: a in FirstPerKey(events, rows) && a.source == e.body.source && a.session == e.body.session
    {
      var a := AnchorOfRow(events, rows, e);
    }
    AnchorKeysDiffer(events, rows);
  }

  lemma ListedAnchorSpeaks(events: seq<RawEvent>, rows: seq<RawEvent>, a: Anchor)
    requires Listing(events, rows) && RowsDiffer(events) && SourcesNulFree(events) && a in FirstPerKey(events, rows)
    ensures SpeaksFor(events, a)
  {
    hide FirstPerKey;
    hide FirstRow;
    hide HeadFor;
    hide ChainKey;
    hide RowsDiffer;
    hide SourcesNulFree;
    hide SpeaksFor;
    hide Count;
    hide LastSeen;
    AnchorIsFirstRow(events, rows, a);
    var key :| FirstRow(rows, key).Some? && a == AnchorOf(events, FirstRow(rows, key).value);
    FirstRowFirst(rows, key);
    var e := FirstRow(rows, key).value;
    assert e in rows;
    ListingMembers(events, rows, e);
    RowIsNulFree(events, e);
    FirstIsHead(events, rows, e.body.source, e.body.session);
    AnchorSpeaks(events, e);
  }

  lemma AnchorOfRow(events: seq<RawEvent>, rows: seq<RawEvent>, e: RawEvent) returns (a: Anchor)
    requires Listing(events, rows) && RowsDiffer(events) && SourcesNulFree(events) && e in events
    ensures a in FirstPerKey(events, rows) && a.source == e.body.source && a.session == e.body.session
  {
    hide FirstPerKey;
    hide FirstRow;
    hide HeadFor;
    hide Listing;
    hide RowsDiffer;
    hide SourcesNulFree;
    hide Lookup;
    hide Count;
    hide LastSeen;
    RowIsNulFree(events, e);
    FirstIsHead(events, rows, e.body.source, e.body.session);
    HeadExists(events, e);
    LookupIsFirstRow(events, rows, ChainKey(e.body.source, e.body.session));
    HeadIsRow(events, e.body.source, e.body.session);
    a := AnchorOf(events, HeadFor(events, e.body.source, e.body.session).value);
    LookupFinds(FirstPerKey(events, rows), ChainKey(e.body.source, e.body.session));
  }

  lemma HeadExists(events: seq<RawEvent>, e: RawEvent)
    requires e in events
    ensures HeadFor(events, e.body.source, e.body.session).Some?
  {
    hide HeadFor;
    HeadIsNewest(events, e.body.source, e.body.session);
    var k :| 0 <= k < |events| && events[k] == e;
    assert InChain(events[k], e.body.source, e.body.session);
  }

  lemma {:induction false} LookupFinds(anchors: seq<Anchor>, key: string)
    ensures Lookup(anchors, key).Some? ==> Lookup(anchors, key).value in anchors
    ensures Lookup(anchors, key).None? ==> forall a :: a in anchors ==> KeyOfAnchor(a) != key
  {
    hide ChainKey;
    if anchors != [] {
      LookupFinds(anchors[..|anchors| - 1], key);
      assert anchors == anchors[..|anchors| - 1] + [anchors[|anchors| - 1]];
    }
  }

  lemma {:induction false} AnchorKeysDiffer(events: seq<RawEvent>, rows: seq<RawEvent>)
    ensures forall i, j :: 0 <= i < j < |FirstPerKey(events, rows)| ==>
              KeyOfAnchor(FirstPerKey(events, rows)[i]) != KeyOfAnchor(FirstPerKey(events, rows)[j])
    ensures forall i, j :: 0 <= i < j < |FirstPerKey(events, rows)| ==>
              var a, b := FirstPerKey(events, rows)[i], FirstPerKey(events, rows)[j];
              a.source != b.source || a.session != b.session
  {
    hide ChainKey;
    hide FirstRow;
    hide Count;
    hide LastSeen;
    hide Lookup;
    if rows != [] {
      var init, last := rows[..|rows| - 1], rows[|rows| - 1];
      AnchorKeysDiffer(events, init);
      var anchors := FirstPerKey(events, init);
      if FirstRow(init, KeyOf(last)).None? {
        LookupIsFirstRow(events, init, KeyOf(last));
        LookupFinds(anchors, KeyOf(last));
        assert FirstPerKey(events, rows) == anchors + [AnchorOf(events, last)];
        assert KeyOfAnchor(AnchorOf(events, last)) == KeyOf(last);
      } else {
        assert FirstPerKey(events, rows) == anchors;
      }
    }
  }
}
