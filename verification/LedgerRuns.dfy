/** What appending keeps of the ledger: when the result verifies, when it does
    not, and what deduplication guarantees over whole runs. */
module LedgerRuns {
  import opened Basics
  import opened Text
  import opened CanonicalJson
  import opened AuditChain
  import opened RawLedger

  // ---- one append --------------------------------------------------------------

  // The last row of a chain in sequence order, where verification looks.
  function ChainEndFor(events: seq<RawEvent>, key: string): Option<RawEvent> {
    if events == [] then None
    else
      var last := events[|events| - 1];
      if ChainKey(last.body.source, last.body.session) == key then Some(last)
      else ChainEndFor(events[..|events| - 1], key)
  }

  lemma {:induction false} ChainEndHash(events: seq<RawEvent>, key: string)
    ensures LastHash(Records(events), key) ==
            if ChainEndFor(events, key).Some? then ChainEndFor(events, key).value.hash else ""
    ensures ChainEndFor(events, key).Some? ==> ChainEndFor(events, key).value in events
  {
    if events != [] {
      var init, last := events[..|events| - 1], events[|events| - 1];
      ChainEndHash(init, key);
      LastHashNext(Records(init), ToRecord(last), key);
      hide ChainKey;
      hide LastHash;
      hide Canonical;
    }
  }

  lemma {:induction false} HeadIsRow(events: seq<RawEvent>, source: string, session: string)
    ensures HeadFor(events, source, session).Some? ==>
            && HeadFor(events, source, session).value in events
            && InChain(HeadFor(events, source, session).value, source, session)
  {
    hide Newer;
    if events != [] {
      HeadIsRow(events[..|events| - 1], source, session);
    }
  }

  // What a verified ledger says of each of its rows.
  lemma VerifiedRow(sha: Sha, events: seq<RawEvent>, k: nat)
    requires Digesting(sha) && RowsVerify(sha, events, true) && k < |events|
    ensures events[k].sequence == k + 1
    ensures OneLine(events[k].previousHash) && OneLine(events[k].hash) && events[k].hash != ""
    ensures events[k].hash == EventHash(sha, events[k].body, k + 1, events[k].previousHash)
  {
    hide Canonical;
    hide ChainKey;
    hide LastHash;
    hide InSequence;
    hide Verifies;
    hide Records;
    var before, e := events[..k], events[k];
    WholeSequence(events, k);
    RowsVerifyPrefix(sha, events, k + 1, true);
    assert events[..k + 1] == before + [e];
    RowsVerifyNext(sha, before, e, true);
    LastHashIsDigest(sha, Records(before), ChainKey(e.body.source, e.body.session));
  }

  // Rows of a verified ledger are told apart by their hashes.
  lemma HashNamesRow(sha: Sha, events: seq<RawEvent>, e: RawEvent, f: RawEvent)
    requires Digesting(sha) && RowsVerify(sha, events, true) && e in events && f in events
    ensures e.hash == f.hash <==> e == f
  {
    hide RowsVerify;
    hide EventHash;
    var i :| 0 <= i < |events| && events[i] == e;
    var j :| 0 <= j < |events| && events[j] == f;
    VerifiedRow(sha, events, i);
    VerifiedRow(sha, events, j);
    EventHashInjective(sha, e.body, i + 1, e.previousHash, f.body, j + 1, f.previousHash);
  }

  lemma {:induction false} MaxSequenceOfVerified(events: seq<RawEvent>)
    requires InSequence(events, true)
    ensures MaxSequence(events) == |events|
  {
    if |events| == 1 {
      WholeSequence(events, 0);
    } else if events != [] {
      var init := events[..|events| - 1];
      assert events == init + [events[|events| - 1]];
      InSequenceNext(init, events[|events| - 1], true);
      MaxSequenceOfVerified(init);
      WholeSequence(events, |events| - 1);
    }
  }

  predicate Trimmed(s: string) {
    TrimSpace(s) == s
  }

  // The row the append chains onto is the row verification expects.
  predicate HeadIsChainEnd(events: seq<RawEvent>, source: string, session: string) {
    HeadFor(events, source, session) == ChainEndFor(events, ChainKey(source, session))
  }

  lemma PreviousHashMatches(sha: Sha, events: seq<RawEvent>, source: string, session: string)
    requires Digesting(sha) && RowsVerify(sha, events, true)
    ensures var head := HeadFor(events, source, session);
            var previousHash := if head.Some? then head.value.hash else "";
            && OneLine(previousHash)
            && (previousHash == LastHash(Records(events), ChainKey(source, session))
                <==> HeadIsChainEnd(events, source, session))
  {
    hide RowsVerify;
    hide LastHash;
    hide HeadFor;
    hide ChainEndFor;
    var head, end := HeadFor(events, source, session), ChainEndFor(events, ChainKey(source, session));
    HeadIsRow(events, source, session);
    ChainEndHash(events, ChainKey(source, session));
    if head.Some? {
      RowHash(sha, events, head.value);
    }
    if end.Some? {
      RowHash(sha, events, end.value);
    }
    if head.Some? && end.Some? {
      HashNamesRow(sha, events, head.value, end.value);
    }
  }

  lemma RowHash(sha: Sha, events: seq<RawEvent>, e: RawEvent)
    requires Digesting(sha) && RowsVerify(sha, events, true) && e in events
    ensures e.hash != "" && OneLine(e.hash)
  {
    hide RowsVerify;
    hide EventHash;
    var i :| 0 <= i < |events| && events[i] == e;
    VerifiedRow(sha, events, i);
  }

  lemma HashedBodyFields(input: RawInput, env: Env, sequence: int)
    ensures var b := HashedBody(input, env, sequence);
            && b.source == input.body.source && b.session == input.body.session
            && b.sourceVersion == input.body.sourceVersion
  {
    hide OrElse;
    hide MarkerText;
  }

  // The number the next event gets.
  lemma NextSequence(events: seq<RawEvent>)
    requires InSequence(events, true)
    ensures MaxSequence(events) == |events| == SequenceBefore(events, |events|)
  {
    MaxSequenceOfVerified(events);
    if |events| > 0 { WholeSequence(events, |events| - 1); }
  }

  // The appended row's own fields, in a verified ledger.
  lemma EventForFields(sha: Sha, events: seq<RawEvent>, input: RawInput, env: Env)
    requires InSequence(events, true)
    ensures var e := EventFor(sha, events, input, env);
            var body := HashedBody(input, env, |events| + 1);
            var head := HeadFor(events, input.body.source, input.body.session);
            && e.sequence == |events| + 1 == SequenceBefore(events, |events|) + 1
            && e.previousHash == (if head.Some? then head.value.hash else "")
            && e.body == body.(sourceVersion := TrimSpace(input.body.sourceVersion))
            && e.hash == EventHash(sha, body, e.sequence, e.previousHash)
            && body.sourceVersion == input.body.sourceVersion
            && e.body.source == input.body.source && e.body.session == input.body.session
            && e.id == env.id && e.createdAt == env.now
  {
    hide HeadFor;
    hide TrimSpace;
    hide EventHash;
    hide MaxSequence;
    hide SequenceBefore;
    hide InSequence;
    hide HashedBody;
    NextSequence(events);
    HashedBodyFields(input, env, |events| + 1);
  }

  lemma RowsVerifyInSequence(sha: Sha, events: seq<RawEvent>, whole: bool)
    requires RowsVerify(sha, events, whole)
    ensures InSequence(events, whole)
  {
  }

  lemma EventForVerifiesExactly(sha: Sha, events: seq<RawEvent>, input: RawInput, env: Env)
    requires Digesting(sha) && RowsVerify(sha, events, true)
    ensures RowsVerify(sha, events + [EventFor(sha, events, input, env)], true) <==>
            Trimmed(input.body.sourceVersion) && HeadIsChainEnd(events, input.body.source, input.body.session)
  {
    hide RowsVerify;
    hide EventFor;
    hide HashedBody;
    hide HeadFor;
    hide HeadIsChainEnd;
    hide Canonical;
    hide ChainKey;
    hide Hash;
    hide TrimSpace;
    hide LastHash;
    hide Records;
    hide SequenceBefore;
    var e := EventFor(sha, events, input, env);
    var body := HashedBody(input, env, |events| + 1);
    RowsVerifyInSequence(sha, events, true);
    EventForFields(sha, events, input, env);
    PreviousHashMatches(sha, events, input.body.source, input.body.session);
    EventHashInjective(sha, body, e.sequence, e.previousHash, e.body, e.sequence, e.previousHash);
    RowsVerifyWithRow(sha, events, e, true);
  }

  // Main result of one append to a verified ledger: the ledger still verifies
  // exactly when nothing was added, or the source version came trimmed and the
  // newest row of the chain by receive time is its last row by sequence.
  lemma AppendVerifiesExactly(sha: Sha, l: Ledger, input: RawInput, env: Env)
    requires Digesting(sha) && LedgerVerifies(sha, l.events, "")
    ensures LedgerVerifies(sha, Append(sha, l, input, env).events, "") <==>
            (AppendOutcome(sha, l, input, env).Accepted? ==>
             Trimmed(input.body.sourceVersion) && HeadIsChainEnd(l.events, input.body.source, input.body.session))
  {
    hide RowsVerify;
    hide EventFor;
    hide AppendOutcome;
    hide HeadIsChainEnd;
    hide TrimSpace;
    hide Identity;
    EventForVerifiesExactly(sha, l.events, input, env);
  }

  // ---- runs -----------------------------------------------------------------------

  // Receive times ascend with the sequence.
  predicate ClockOrdered(events: seq<RawEvent>) {
    forall i, j :: 0 <= i < j < |events| ==> events[i].createdAt < events[j].createdAt
  }

  predicate SourcesNulFree(events: seq<RawEvent>) {
    forall k :: 0 <= k < |events| ==> NulFree(events[k].body.source)
  }

  predicate Before(events: seq<RawEvent>, now: int) {
    forall k :: 0 <= k < |events| ==> events[k].createdAt < now
  }

  // With ascending receive times and sources free of NUL, the newest row of a
  // chain is its last one.
  lemma {:induction false} ClockOrderedHead(events: seq<RawEvent>, source: string, session: string)
    requires ClockOrdered(events) && SourcesNulFree(events) && NulFree(source)
    ensures HeadIsChainEnd(events, source, session)
  {
    if events != [] {
      var init, last := events[..|events| - 1], events[|events| - 1];
      assert ClockOrdered(init) && SourcesNulFree(init);
      ClockOrderedHead(init, source, session);
      ChainKeyInjective(last.body.source, last.body.session, source, session);
      HeadIsRow(init, source, session);
      hide ChainKey;
    }
  }

  // What a well-kept ledger satisfies.
  predicate WellKept(sha: Sha, l: Ledger) {
    LedgerVerifies(sha, l.events, "") && ClockOrdered(l.events) && SourcesNulFree(l.events)
  }

  datatype Arrival = Arrival(input: RawInput, env: Env)

  predicate WellFormed(a: Arrival) {
    NulFree(a.input.body.source) && Trimmed(a.input.body.sourceVersion)
  }

  lemma EventForOrder(sha: Sha, events: seq<RawEvent>, input: RawInput, env: Env)
    ensures var e := EventFor(sha, events, input, env);
            e.createdAt == env.now && e.body.source == input.body.source && e.body.session == input.body.session
  {
    hide HeadFor;
    hide TrimSpace;
    hide EventHash;
    hide MaxSequence;
    hide HashedBody;
    HashedBodyFields(input, env, MaxSequence(events) + 1);
  }

  lemma ExtendedOrder(events: seq<RawEvent>, e: RawEvent)
    requires ClockOrdered(events) && SourcesNulFree(events) && Before(events, e.createdAt) && NulFree(e.body.source)
    ensures ClockOrdered(events + [e]) && SourcesNulFree(events + [e]) && Before(events + [e], e.createdAt + 1)
  {
  }

  // The table stays, or grows by one row received now.
  lemma AppendKeepsOrder(sha: Sha, l: Ledger, a: Arrival)
    requires ClockOrdered(l.events) && SourcesNulFree(l.events)
    requires NulFree(a.input.body.source) && Before(l.events, a.env.now)
    ensures var after := Append(sha, l, a.input, a.env).events;
            ClockOrdered(after) && SourcesNulFree(after) && Before(after, a.env.now + 1)
  {
    hide EventFor;
    hide AppendOutcome;
    hide Identity;
    hide ClockOrdered;
    hide SourcesNulFree;
    hide NulFree;
    hide Before;
    EventForOrder(sha, l.events, a.input, a.env);
    ExtendedOrder(l.events, EventFor(sha, l.events, a.input, a.env));
    BeforeLater(l.events, a.env.now);
  }

  lemma BeforeLater(events: seq<RawEvent>, now: int)
    requires Before(events, now)
    ensures Before(events, now + 1)
  {
  }

  lemma AppendStaysWellKept(sha: Sha, l: Ledger, a: Arrival)
    requires Digesting(sha) && WellKept(sha, l) && WellFormed(a) && Before(l.events, a.env.now)
    ensures WellKept(sha, Append(sha, l, a.input, a.env))
    ensures Before(Append(sha, l, a.input, a.env).events, a.env.now + 1)
  {
    hide LedgerVerifies;
    hide AppendOutcome;
    hide HeadIsChainEnd;
    hide Append;
    hide ClockOrdered;
    hide SourcesNulFree;
    hide NulFree;
    hide Trimmed;
    hide Before;
    hide Digesting;
    AppendKeepsOrder(sha, l, a);
    AppendVerifiesExactly(sha, l, a.input, a.env);
    ClockOrderedHead(l.events, a.input.body.source, a.input.body.session);
  }

  function Run(sha: Sha, l: Ledger, arrivals: seq<Arrival>): Ledger {
    if arrivals == [] then l
    else
      var last := arrivals[|arrivals| - 1];
      Append(sha, Run(sha, l, arrivals[..|arrivals| - 1]), last.input, last.env)
  }

  predicate TimesAscend(arrivals: seq<Arrival>) {
    forall i, j :: 0 <= i < j < |arrivals| ==> arrivals[i].env.now < arrivals[j].env.now
  }

  predicate AllWellFormed(arrivals: seq<Arrival>) {
    forall k :: 0 <= k < |arrivals| ==> WellFormed(arrivals[k])
  }

  // Main result over runs: with ascending receive times, sources free of NUL and
  // trimmed versions, whatever is appended, refused, suppressed or marked, and
  // however sources and sessions interleave, the ledger verifies as a whole.
  lemma {:induction false} RunsStayWellKept(sha: Sha, l: Ledger, arrivals: seq<Arrival>)
    requires Digesting(sha) && WellKept(sha, l) && AllWellFormed(arrivals) && TimesAscend(arrivals)
    requires arrivals != [] ==> Before(l.events, arrivals[0].env.now)
    ensures WellKept(sha, Run(sha, l, arrivals))
    ensures arrivals != [] ==> Before(Run(sha, l, arrivals).events, arrivals[|arrivals| - 1].env.now + 1)
  {
    hide WellKept;
    hide WellFormed;
    hide Append;
    if arrivals != [] {
      var init, last := arrivals[..|arrivals| - 1], arrivals[|arrivals| - 1];
      RunsStayWellKept(sha, l, init);
      assert init != [] ==> init[|init| - 1].env.now < last.env.now;
      assert Before(Run(sha, l, init).events, last.env.now);
      AppendStaysWellKept(sha, Run(sha, l, init), last);
    }
  }

  // ---- single sessions ------------------------------------------------------------------

  lemma OfSessionNext(events: seq<RawEvent>, e: RawEvent, session: string)
    ensures OfSession(events + [e], session) ==
            if e.body.session == session then OfSession(events, session) + [e] else OfSession(events, session)
  {
    assert (events + [e])[..|events|] == events;
    assert OfSession(events, session) + [] == OfSession(events, session);
  }

  lemma {:induction false} OfSessionSubset(events: seq<RawEvent>, session: string)
    ensures forall e :: e in OfSession(events, session) ==> e in events
  {
    if events != [] {
      OfSessionSubset(events[..|events| - 1], session);
    }
  }

  // A session's events hold its chains whole, when sources are free of NUL.
  lemma {:induction false} OfSessionKeepsChains(events: seq<RawEvent>, source: string, session: string)
    requires SourcesNulFree(events) && NulFree(source)
    ensures ChainEndFor(OfSession(events, session), ChainKey(source, session)) ==
            ChainEndFor(events, ChainKey(source, session))
  {
    hide ChainKey;
    if events != [] {
      var init, last := events[..|events| - 1], events[|events| - 1];
      assert events == init + [last];
      assert SourcesNulFree(init);
      OfSessionKeepsChains(init, source, session);
      OfSessionNext(init, last, session);
      ChainKeyInjective(last.body.source, last.body.session, source, session);
      if last.body.session == session {
        assert (OfSession(init, session) + [last])[..|OfSession(init, session)|] == OfSession(init, session);
      }
    }
  }

  lemma OfSessionSequence(events: seq<RawEvent>, session: string)
    requires InSequence(events, true)
    ensures SequenceBefore(OfSession(events, session), |OfSession(events, session)|) <= |events|
  {
    hide OfSession;
    hide InSequence;
    var mine := OfSession(events, session);
    if mine != [] {
      OfSessionSubset(events, session);
      assert mine[|mine| - 1] in events;
      var k: nat :| k < |events| && events[k] == mine[|mine| - 1];
      WholeSequence(events, k);
    }
  }

  // The hash a session's own listing expects next is the whole ledger's.
  lemma OfSessionLastHash(events: seq<RawEvent>, source: string, session: string)
    requires SourcesNulFree(events) && NulFree(source)
    ensures LastHash(Records(OfSession(events, session)), ChainKey(source, session)) ==
            LastHash(Records(events), ChainKey(source, session))
  {
    hide LastHash;
    hide Records;
    hide ChainKey;
    hide ChainEndFor;
    hide OfSession;
    OfSessionKeepsChains(events, source, session);
    ChainEndHash(events, ChainKey(source, session));
    ChainEndHash(OfSession(events, session), ChainKey(source, session));
  }

  lemma SessionAccepts(sha: Sha, events: seq<RawEvent>, e: RawEvent)
    requires RowsVerify(sha, events + [e], true) && SourcesNulFree(events) && NulFree(e.body.source)
    requires RowsVerify(sha, OfSession(events, e.body.session), false)
    ensures RowsVerify(sha, OfSession(events, e.body.session) + [e], false)
  {
    hide RowsVerify;
    hide LastHash;
    hide Records;
    hide ChainKey;
    hide Canonical;
    hide Hash;
    hide OfSession;
    hide SequenceBefore;
    hide NulFree;
    hide InSequence;
    hide SourcesNulFree;
    assert (events + [e])[..|events|] == events;
    RowsVerifyPrefix(sha, events + [e], |events|, true);
    RowsVerifyWithRow(sha, events, e, true);
    RowsVerifyInSequence(sha, events, true);
    NextSequence(events);
    OfSessionSequence(events, e.body.session);
    OfSessionLastHash(events, e.body.source, e.body.session);
    RowsVerifyWithRow(sha, OfSession(events, e.body.session), e, false);
  }

  lemma NoRowsVerify(sha: Sha, session: string)
    ensures RowsVerify(sha, OfSession([], session), false)
  {
  }

  lemma SourcesNulFreeSplit(events: seq<RawEvent>)
    requires SourcesNulFree(events) && events != []
    ensures SourcesNulFree(events[..|events| - 1]) && NulFree(events[|events| - 1].body.source)
  {
  }

  // Main result for single sessions: what verifies as a whole verifies session by
  // session.
  lemma {:induction false} SessionsVerify(sha: Sha, events: seq<RawEvent>, session: string)
    requires RowsVerify(sha, events, true) && SourcesNulFree(events)
    ensures RowsVerify(sha, OfSession(events, session), false)
  {
    hide RowsVerify;
    hide OfSession;
    hide SourcesNulFree;
    if events == [] {
      NoRowsVerify(sha, session);
    } else {
      var init, e := events[..|events| - 1], events[|events| - 1];
      SourcesNulFreeSplit(events);
      RowsVerifyPrefix(sha, events, |init|, true);
      SessionsVerify(sha, init, session);
      assert events == init + [e];
      OfSessionNext(init, e, session);
      if e.body.session == session {
        SessionAccepts(sha, init, e);
      }
    }
  }

  // A well-kept ledger verifies whole and for every session.
  lemma WellKeptVerifies(sha: Sha, l: Ledger, session: string)
    requires WellKept(sha, l)
    ensures LedgerVerifies(sha, l.events, session)
  {
    SessionsVerify(sha, l.events, session);
  }

  // ---- tampering ----------------------------------------------------------------------

  // Rewriting hashed columns of one row is noticed, whatever they become.
  lemma RewrittenRowIsNoticed(sha: Sha, events: seq<RawEvent>, k: nat, body: Body)
    requires Digesting(sha) && RowsVerify(sha, events, true) && k < |events|
    ensures RowsVerify(sha, events[k := events[k].(body := body)], true) <==> body == events[k].body
  {
    hide RowsVerify;
    hide EventHash;
    VerifiedRow(sha, events, k);
    var forged := events[k := events[k].(body := body)];
    if RowsVerify(sha, forged, true) {
      VerifiedRow(sha, forged, k);
      EventHashInjective(sha, events[k].body, k + 1, events[k].previousHash, body, k + 1, events[k].previousHash);
    } else {
      assert body == events[k].body ==> forged == events;
    }
  }

  // ---- deduplication -------------------------------------------------------------------

  predicate AcceptedAt(sha: Sha, arrivals: seq<Arrival>, k: nat)
    requires k < |arrivals|
  {
    AppendOutcome(sha, Run(sha, EMPTY, arrivals[..k]), arrivals[k].input, arrivals[k].env).Accepted?
  }

  // The k-th arrival was accepted under an identity.
  predicate Introduced(sha: Sha, arrivals: seq<Arrival>, k: int, identity: string) {
    0 <= k < |arrivals| && AcceptedAt(sha, arrivals, k) && Identity(sha, arrivals[k].input) == identity
  }

  lemma IntroducedNext(sha: Sha, arrivals: seq<Arrival>, a: Arrival, k: int, identity: string)
    ensures Introduced(sha, arrivals + [a], k, identity) <==>
            if k == |arrivals|
            then AppendOutcome(sha, Run(sha, EMPTY, arrivals), a.input, a.env).Accepted?
                && Identity(sha, a.input) == identity
            else Introduced(sha, arrivals, k, identity)
  {
    hide AppendOutcome;
    hide Run;
    hide Identity;
    var all := arrivals + [a];
    assert all[..|arrivals|] == arrivals;
    if 0 <= k < |arrivals| {
      assert all[..k] == arrivals[..k];
    }
  }

  lemma IntroducedInRange(sha: Sha, arrivals: seq<Arrival>, k: int, identity: string)
    requires Introduced(sha, arrivals, k, identity)
    ensures 0 <= k < |arrivals|
  {
  }

  lemma RunNext(sha: Sha, l: Ledger, arrivals: seq<Arrival>, a: Arrival)
    ensures Run(sha, l, arrivals + [a]) == Append(sha, Run(sha, l, arrivals), a.input, a.env)
  {
    assert (arrivals + [a])[..|arrivals|] == arrivals;
  }

  lemma AppendDedup(sha: Sha, l: Ledger, a: Arrival, identity: string)
    ensures var before, after := l.dedup, Append(sha, l, a.input, a.env).dedup;
            var added := AppendOutcome(sha, l, a.input, a.env).Accepted? && Identity(sha, a.input) == identity;
            && (added ==> identity !in before)
            && (identity in after <==> identity in before || added)
            && (identity in before ==> after[identity].eventId == before[identity].eventId)
            && (added ==> after[identity].eventId == a.env.id)
  {
    hide EventFor;
    hide Identity;
    hide Acceptable;
    hide Stale;
    hide HasId;
    hide MaxSequence;
  }

  // The dedup table remembers each identity's one accepted arrival.
  lemma {:induction false} DedupRemembers(sha: Sha, arrivals: seq<Arrival>, identity: string)
    ensures var dedup := Run(sha, EMPTY, arrivals).dedup;
            && (identity in dedup <==> exists k :: Introduced(sha, arrivals, k, identity))
            && (forall k :: Introduced(sha, arrivals, k, identity) ==>
                identity in dedup && dedup[identity].eventId == arrivals[k].env.id)
            && (forall j, k :: Introduced(sha, arrivals, j, identity) && Introduced(sha, arrivals, k, identity) ==>
                  j == k)
  {
    hide Identity;
    hide AppendOutcome;
    hide Append;
    if arrivals != [] {
      var init, a := arrivals[..|arrivals| - 1], arrivals[|arrivals| - 1];
      assert arrivals == init + [a];
      hide Run;
      hide Introduced;
      DedupRemembers(sha, init, identity);
      RunNext(sha, EMPTY, init, a);
      AppendDedup(sha, Run(sha, EMPTY, init), a, identity);
      forall k ensures Introduced(sha, arrivals, k, identity) <==>
            if k == |init|
            then AppendOutcome(sha, Run(sha, EMPTY, init), a.input, a.env).Accepted?
                && Identity(sha, a.input) == identity
            else Introduced(sha, init, k, identity)
      {
        IntroducedNext(sha, init, a, k, identity);
      }
      assert Introduced(sha, arrivals, |init|, identity) <==>
             AppendOutcome(sha, Run(sha, EMPTY, init), a.input, a.env).Accepted? && Identity(sha, a.input) == identity;
      if exists k :: Introduced(sha, init, k, identity) {
        var k :| Introduced(sha, init, k, identity);
        IntroducedInRange(sha, init, k, identity);
        assert Introduced(sha, arrivals, k, identity);
      }
    }
  }

  // Main result on deduplication: after any run, an acceptable event is suppressed
  // as a copy of an id exactly when the arrival accepted under that id has the
  // same identity, whatever else arrived before, between or after.
  lemma SuppressedExactly(sha: Sha, arrivals: seq<Arrival>, a: Arrival, id: string)
    requires Digesting(sha)
    ensures AppendOutcome(sha, Run(sha, EMPTY, arrivals), a.input, a.env) == Suppressed(id) <==>
            Acceptable(a.input) && exists k ::
              0 <= k < |arrivals| && AcceptedAt(sha, arrivals, k) && arrivals[k].env.id == id
              && SameIdentity(arrivals[k].input, a.input)
  {
    hide Identity;
    hide Acceptable;
    hide Run;
    hide AcceptedAt;
    hide SameIdentity;
    var identity := Identity(sha, a.input);
    DedupRemembers(sha, arrivals, identity);
    forall k | 0 <= k < |arrivals|
      ensures Introduced(sha, arrivals, k, identity) <==>
              AcceptedAt(sha, arrivals, k) && SameIdentity(arrivals[k].input, a.input)
    {
      IdentityExact(sha, arrivals[k].input, a.input);
    }
  }

  // A suppressed copy leaves every event as it was.
  lemma SuppressedKeepsEvents(sha: Sha, l: Ledger, a: Arrival)
    requires !AppendOutcome(sha, l, a.input, a.env).Accepted?
    ensures Append(sha, l, a.input, a.env).events == l.events
  {
    hide EventFor;
    hide Identity;
    hide AppendOutcome;
  }

  lemma SuppressedAgain(sha: Sha, arrivals: seq<Arrival>, a: Arrival, k: nat)
    requires Digesting(sha) && k < |arrivals| && AcceptedAt(sha, arrivals, k) && arrivals[k].input == a.input
    ensures AppendOutcome(sha, Run(sha, EMPTY, arrivals), a.input, a.env) == Suppressed(arrivals[k].env.id)
  {
    hide Identity;
    hide Run;
    hide HasId;
    hide MaxSequence;
    hide Stale;
    hide Acceptable;
    assert SameIdentity(arrivals[k].input, a.input);
    SuppressedExactly(sha, arrivals, a, arrivals[k].env.id);
  }

  lemma AcceptedEarlier(sha: Sha, arrivals: seq<Arrival>, more: seq<Arrival>, k: nat)
    requires k < |arrivals|
    ensures AcceptedAt(sha, arrivals + more, k) == AcceptedAt(sha, arrivals, k)
  {
    hide AppendOutcome;
    hide Run;
    assert (arrivals + more)[..k] == arrivals[..k];
  }

  // Main result on redelivery: arrivals that were accepted once can be delivered
  // again, any of them, in any order and at any time, and no event is added.
  lemma {:induction false} RedeliveryAddsNothing(sha: Sha, arrivals: seq<Arrival>, again: seq<Arrival>)
    requires Digesting(sha)
    requires forall a :: a in again ==>
               exists k :: 0 <= k < |arrivals| && AcceptedAt(sha, arrivals, k) && arrivals[k].input == a.input
    ensures Run(sha, EMPTY, arrivals + again).events == Run(sha, EMPTY, arrivals).events
  {
    hide Run;
    hide AcceptedAt;
    hide AppendOutcome;
    hide Append;
    if again == [] {
      assert arrivals + again == arrivals;
    } else {
      var init, a := again[..|again| - 1], again[|again| - 1];
      assert arrivals + again == (arrivals + init) + [a];
      assert forall b :: b in init ==> b in again;
      RedeliveryAddsNothing(sha, arrivals, init);
      assert a in again;
      var k :| 0 <= k < |arrivals| && AcceptedAt(sha, arrivals, k) && arrivals[k].input == a.input;
      AcceptedEarlier(sha, arrivals, init, k);
      SuppressedAgain(sha, arrivals + init, a, k);
      SuppressedKeepsEvents(sha, Run(sha, EMPTY, arrivals + init), a);
      RunNext(sha, EMPTY, arrivals + init, a);
    }
  }

  // ---- what is stored -------------------------------------------------------------------

  // The row holds the arrival as it was given: its links and columns, the defaults
  // of the missing ones, and the receive time.
  predicate RowOf(e: RawEvent, a: Arrival) {
    && e.id == a.env.id && e.createdAt == a.env.now
    && e.links.trace == a.input.links.trace && e.links.span == a.input.links.span
    && e.links.parent == a.input.links.parent
    && e.body.source == a.input.body.source && e.body.sourceVersion == TrimSpace(a.input.body.sourceVersion)
    && e.body.session == a.input.body.session && e.body.eventType == a.input.body.eventType
    && e.body.occurredAt == (if a.input.occurred then a.input.body.occurredAt else a.env.clockText)
    && e.body.project == a.input.body.project && e.body.location == a.input.body.location
    && e.body.workContext == a.input.body.workContext
    && e.body.resolution == (if a.input.body.resolution == "" then "unresolved" else a.input.body.resolution)
    && e.body.confidence == (if a.input.body.confidence == "" then "unknown" else a.input.body.confidence)
    && e.body.evidence == (if a.input.body.evidence == "" then "{}" else a.input.body.evidence)
    && (a.input.marker.None? ==> e.body.payload == (if a.input.body.payload == "" then "{}" else a.input.body.payload))
    && (a.input.marker.Some? ==> e.body.payload == MarkerText(a.input.marker.value.(eventSequence := e.sequence - 1)))
  }

  lemma EventForRow(sha: Sha, events: seq<RawEvent>, a: Arrival)
    ensures RowOf(EventFor(sha, events, a.input, a.env), a)
  {
    hide HeadFor;
    hide TrimSpace;
    hide EventHash;
    hide MaxSequence;
    hide MarkerText;
  }

  lemma {:induction false} RunKeepsRows(sha: Sha, arrivals: seq<Arrival>, n: nat)
    requires n <= |arrivals|
    ensures Run(sha, EMPTY, arrivals[..n]).events <= Run(sha, EMPTY, arrivals).events
    decreases |arrivals|
  {
    hide Run;
    hide Append;
    if n == |arrivals| {
      assert arrivals[..n] == arrivals;
    } else {
      var init, a := arrivals[..|arrivals| - 1], arrivals[|arrivals| - 1];
      assert arrivals == init + [a] && init[..n] == arrivals[..n];
      RunKeepsRows(sha, init, n);
      RunNext(sha, EMPTY, init, a);
      AppendAddsRow(sha, Run(sha, EMPTY, init), a);
    }
  }

  // An append adds the one row of an accepted arrival, under a new id, or none.
  lemma AppendAddsRow(sha: Sha, l: Ledger, a: Arrival)
    ensures var after := Append(sha, l, a.input, a.env).events;
            if AppendOutcome(sha, l, a.input, a.env).Accepted?
            then |after| == |l.events| + 1 && after[..|l.events|] == l.events && RowOf(after[|l.events|], a)
                 && !HasId(l.events, a.env.id)
            else after == l.events
  {
    hide Identity;
    hide Acceptable;
    hide Stale;
    hide HasId;
    hide MaxSequence;
    hide EventFor;
    hide RowOf;
    EventForRow(sha, l.events, a);
  }

  predicate IdsDiffer(events: seq<RawEvent>) {
    forall i, j :: 0 <= i < j < |events| ==> events[i].id != events[j].id
  }

  lemma AppendKeepsIdsDiffer(sha: Sha, l: Ledger, a: Arrival)
    requires IdsDiffer(l.events)
    ensures IdsDiffer(Append(sha, l, a.input, a.env).events)
  {
    hide Append;
    hide AppendOutcome;
    AppendAddsRow(sha, l, a);
  }

  lemma {:induction false} RunIdsDiffer(sha: Sha, arrivals: seq<Arrival>)
    ensures IdsDiffer(Run(sha, EMPTY, arrivals).events)
  {
    hide Append;
    hide IdsDiffer;
    if arrivals == [] {
      NoIds();
    } else {
      var init, a := arrivals[..|arrivals| - 1], arrivals[|arrivals| - 1];
      RunIdsDiffer(sha, init);
      AppendKeepsIdsDiffer(sha, Run(sha, EMPTY, init), a);
    }
  }

  lemma NoIds()
    ensures IdsDiffer([])
  {
  }

  // Main result on storing: after any run, the one row under an accepted arrival's id
  // holds that arrival.
  lemma AcceptedIsStored(sha: Sha, arrivals: seq<Arrival>, k: nat) returns (j: nat)
    requires k < |arrivals| && AcceptedAt(sha, arrivals, k)
    ensures var events := Run(sha, EMPTY, arrivals).events;
            j < |events| && RowOf(events[j], arrivals[k])
            && forall i :: 0 <= i < |events| && events[i].id == arrivals[k].env.id ==> i == j
  {
    hide Run;
    hide Append;
    hide AppendOutcome;
    hide RowOf;
    var before := Run(sha, EMPTY, arrivals[..k]);
    var a := arrivals[k];
    assert arrivals[..k + 1] == arrivals[..k] + [a];
    RunNext(sha, EMPTY, arrivals[..k], a);
    AppendAddsRow(sha, before, a);
    RunKeepsRows(sha, arrivals, k + 1);
    RunIdsDiffer(sha, arrivals);
    j := |before.events|;
    RowOfId(Run(sha, EMPTY, arrivals).events[j], a);
  }

  lemma RowOfId(e: RawEvent, a: Arrival)
    requires RowOf(e, a)
    ensures e.id == a.env.id
  {
  }

  // And there are no other rows.
  lemma {:induction false} StoredWasAccepted(sha: Sha, arrivals: seq<Arrival>, j: nat) returns (k: nat)
    requires j < |Run(sha, EMPTY, arrivals).events|
    ensures k < |arrivals| && AcceptedAt(sha, arrivals, k) && RowOf(Run(sha, EMPTY, arrivals).events[j], arrivals[k])
  {
    hide Append;
    hide AppendOutcome;
    hide RowOf;
    var init, a := arrivals[..|arrivals| - 1], arrivals[|arrivals| - 1];
    AppendAddsRow(sha, Run(sha, EMPTY, init), a);
    assert arrivals == init + [a];
    if j < |Run(sha, EMPTY, init).events| {
      k := StoredWasAccepted(sha, init, j);
      AcceptedEarlier(sha, init, [a], k);
    } else {
      k := |init|;
      assert arrivals[..k] == init;
    }
  }

  // ---- inputs that break verification ---------------------------------------------------

  lemma AcceptedGrows(sha: Sha, l: Ledger, a: Arrival)
    requires AppendOutcome(sha, l, a.input, a.env).Accepted?
    ensures Append(sha, l, a.input, a.env).events == l.events + [EventFor(sha, l.events, a.input, a.env)]
  {
    hide EventFor;
    hide AppendOutcome;
    hide Identity;
  }

  lemma OlderRowIsNotHead(events: seq<RawEvent>, e: RawEvent, source: string, session: string)
    requires HeadFor(events, source, session).Some? && InChain(e, source, session)
    requires e.createdAt < HeadFor(events, source, session).value.createdAt
    ensures HeadFor(events + [e], source, session) == HeadFor(events, source, session)
    ensures ChainEndFor(events + [e], ChainKey(source, session)) == Some(e)
  {
    assert (events + [e])[..|events|] == events;
  }

  // An append received before the head of its chain is chained correctly, but it
  // does not become the head: the next append to the chain breaks it.
  lemma ClockStepBackBreaksNext(sha: Sha, l: Ledger, a: Arrival, b: Arrival)
    requires Digesting(sha) && LedgerVerifies(sha, l.events, "") && WellFormed(a)
    requires HeadIsChainEnd(l.events, a.input.body.source, a.input.body.session)
    requires HeadFor(l.events, a.input.body.source, a.input.body.session).Some?
    requires a.env.now < HeadFor(l.events, a.input.body.source, a.input.body.session).value.createdAt
    requires b.input.body.source == a.input.body.source && b.input.body.session == a.input.body.session
    requires AppendOutcome(sha, l, a.input, a.env).Accepted?
    requires AppendOutcome(sha, Append(sha, l, a.input, a.env), b.input, b.env).Accepted?
    ensures LedgerVerifies(sha, Append(sha, l, a.input, a.env).events, "")
    ensures !LedgerVerifies(sha, Append(sha, Append(sha, l, a.input, a.env), b.input, b.env).events, "")
  {
    hide LedgerVerifies;
    hide AppendOutcome;
    hide Append;
    hide EventFor;
    hide Trimmed;
    hide HeadFor;
    hide ChainEndFor;
    hide Digesting;
    hide ChainKey;
    var e := EventFor(sha, l.events, a.input, a.env);
    AppendVerifiesExactly(sha, l, a.input, a.env);
    AppendVerifiesExactly(sha, Append(sha, l, a.input, a.env), b.input, b.env);
    AcceptedGrows(sha, l, a);
    EventForOrder(sha, l.events, a.input, a.env);
    OlderRowIsNotHead(l.events, e, a.input.body.source, a.input.body.session);
  }

  function Sample(source: string, version: string, session: string, identity: string): RawInput {
    RawInput(Body(source, version, session, "event", "", "", "", "", "", "", "", ""), false, false, identity,
             Links("", "", ""), None)
  }

  lemma TrimSpaceKeeps(s: string)
    requires s != "" && !IsSpace(s[0]) && !IsSpace(s[|s| - 1])
    ensures TrimSpace(s) == s
  {
  }

  lemma SampleIdentities(sha: Sha, source: string, version: string, session: string, i: string,
                         other: string, another: string, third: string, j: string)
    requires Digesting(sha)
    requires TrimSpace(i) == i != "" && TrimSpace(j) == j != ""
    ensures Identity(sha, Sample(source, version, session, i)) == Identity(sha, Sample(other, another, third, j)) <==>
            source == other && session == third && i == j
  {
    hide Identity;
    hide TrimSpace;
    IdentityExact(sha, Sample(source, version, session, i), Sample(other, another, third, j));
  }

  lemma SampleAcceptable(source: string, version: string, session: string, identity: string)
    requires TrimSpace(source) != "" && source != BOUNDARY_SOURCE
    ensures Acceptable(Sample(source, version, session, identity))
  {
    hide TrimSpace;
    TrimSpaceKeeps("event");
  }

  // A new sample is accepted when its identity is new and its id is fresh.
  lemma SampleAccepted(sha: Sha, l: Ledger, source: string, version: string, session: string, identity: string,
      id: string, now: int)
    requires Acceptable(Sample(source, version, session, identity))
    requires Identity(sha, Sample(source, version, session, identity)) !in l.dedup && !HasId(l.events, id)
    ensures AppendOutcome(sha, l, Sample(source, version, session, identity), Env(id, now, "", true)).Accepted?
  {
    hide Acceptable;
    hide Identity;
    hide HasId;
    hide MaxSequence;
  }

  lemma Literals()
    ensures TrimSpace("a") == "a" && TrimSpace("a\0b") == "a\0b"
    ensures TrimSpace("1") == "1" && TrimSpace("2") == "2" && TrimSpace("3") == "3"
    ensures Trimmed("") && !Trimmed(" 1")
  {
    TrimSpaceKeeps("a");
    TrimSpaceKeeps("a\0b");
    TrimSpaceKeeps("1");
    TrimSpaceKeeps("2");
    TrimSpaceKeeps("3");
    assert TrimLeft(" 1") == TrimLeft(" 1"[1..]) == "1";
  }

  lemma EmptyVerifies(sha: Sha, source: string, session: string, input: RawInput, id: string)
    ensures LedgerVerifies(sha, EMPTY.events, "") && ClockOrdered(EMPTY.events) && SourcesNulFree(EMPTY.events)
    ensures HeadIsChainEnd(EMPTY.events, source, session)
    ensures Identity(sha, input) !in EMPTY.dedup && !HasId(EMPTY.events, id)
  {
  }

  // One event whose version has a leading blank: the stored row no longer has the
  // hash it was given.
  lemma UntrimmedVersionBreaks(sha: Sha)
    requires Digesting(sha)
    ensures var input, env := Sample("a", " 1", "s", "1"), Env("e1", 1, "", true);
            && AppendOutcome(sha, EMPTY, input, env).Accepted?
            && !LedgerVerifies(sha, Append(sha, EMPTY, input, env).events, "")
  {
    hide AppendOutcome;
    hide Append;
    hide Acceptable;
    hide Identity;
    hide LedgerVerifies;
    hide HeadIsChainEnd;
    hide HasId;
    hide TrimSpace;
    hide Trimmed;
    var input, env := Sample("a", " 1", "s", "1"), Env("e1", 1, "", true);
    Literals();
    SampleAcceptable("a", " 1", "s", "1");
    EmptyVerifies(sha, "a", "s", input, "e1");
    SampleAccepted(sha, EMPTY, "a", " 1", "s", "1", "e1", 1);
    AppendVerifiesExactly(sha, EMPTY, input, env);
  }

  // A sample appended to any ledger under a new identity and id.
  lemma SampleAppended(sha: Sha, l: Ledger, source: string, session: string, identity: string, id: string, now: int)
    requires Digesting(sha) && LedgerVerifies(sha, l.events, "") && HeadIsChainEnd(l.events, source, session)
    requires TrimSpace(source) != "" && source != BOUNDARY_SOURCE
    requires Identity(sha, Sample(source, "", session, identity)) !in l.dedup && !HasId(l.events, id)
    ensures var input, env := Sample(source, "", session, identity), Env(id, now, "", true);
            var after, e := Append(sha, l, input, env), EventFor(sha, l.events, input, env);
            && AppendOutcome(sha, l, input, env).Accepted? && LedgerVerifies(sha, after.events, "")
            && after.events == l.events + [e]
            && e.id == id && e.createdAt == now && InChain(e, source, session)
  {
    hide AppendOutcome;
    hide Append;
    hide Acceptable;
    hide Identity;
    hide LedgerVerifies;
    hide HeadIsChainEnd;
    hide HasId;
    hide TrimSpace;
    hide Trimmed;
    hide EventFor;
    var input, env := Sample(source, "", session, identity), Env(id, now, "", true);
    Literals();
    SampleAcceptable(source, "", session, identity);
    SampleAccepted(sha, l, source, "", session, identity, id, now);
    AppendVerifiesExactly(sha, l, input, env);
    AcceptedGrows(sha, l, Arrival(input, env));
    EventForOrder(sha, l.events, input, env);
    EventForId(sha, l.events, input, env);
  }

  lemma EventForId(sha: Sha, events: seq<RawEvent>, input: RawInput, env: Env)
    ensures EventFor(sha, events, input, env).id == env.id
  {
    hide HeadFor;
    hide TrimSpace;
    hide EventHash;
    hide MaxSequence;
    hide HashedBody;
  }

  // What a second sample needs after a first one on the empty ledger.
  lemma SampleFresh(sha: Sha, source: string, session: string, now: int, other: string, another: string)
    requires Digesting(sha) && TrimSpace(source) != "" && source != BOUNDARY_SOURCE
    ensures var first, env := Sample(source, "", session, "1"), Env("e1", now, "", true);
            var l, e := Append(sha, EMPTY, first, env), EventFor(sha, [], first, env);
            && LedgerVerifies(sha, l.events, "") && l.events == [e]
            && e.createdAt == now && InChain(e, source, session)
            && Identity(sha, Sample(other, "", another, "2")) !in l.dedup && !HasId(l.events, "e2")
            && Identity(sha, Sample(other, "", another, "3")) !in l.dedup && !HasId(l.events, "e3")
  {
    hide AppendOutcome;
    hide Append;
    hide Identity;
    hide LedgerVerifies;
    hide HeadIsChainEnd;
    hide TrimSpace;
    hide EventFor;
    var first, env := Sample(source, "", session, "1"), Env("e1", now, "", true);
    Literals();
    EmptyVerifies(sha, source, session, first, "e1");
    SampleAppended(sha, EMPTY, source, session, "1", "e1", now);
    AppendDedup(sha, EMPTY, Arrival(first, env), Identity(sha, Sample(other, "", another, "2")));
    AppendDedup(sha, EMPTY, Arrival(first, env), Identity(sha, Sample(other, "", another, "3")));
    SampleIdentities(sha, source, "", session, "1", other, "", another, "2");
    SampleIdentities(sha, source, "", session, "1", other, "", another, "3");
  }

  // Two sources and sessions whose chain keys are the same text: the second event
  // starts a chain of its own, which verification takes for the first one's.
  lemma NulInSourceBreaks(sha: Sha)
    requires Digesting(sha)
    ensures var first, second := Sample("a\0b", "", "c", "1"), Sample("a", "", "b\0c", "2");
            var l := Append(sha, EMPTY, first, Env("e1", 1, "", true));
            && LedgerVerifies(sha, l.events, "")
            && AppendOutcome(sha, l, second, Env("e2", 2, "", true)).Accepted?
            && !LedgerVerifies(sha, Append(sha, l, second, Env("e2", 2, "", true)).events, "")
  {
    hide AppendOutcome;
    hide Append;
    hide Acceptable;
    hide Identity;
    hide LedgerVerifies;
    hide HasId;
    hide TrimSpace;
    hide Trimmed;
    hide EventFor;
    var first, second := Sample("a\0b", "", "c", "1"), Sample("a", "", "b\0c", "2");
    var l := Append(sha, EMPTY, first, Env("e1", 1, "", true));
    Literals();
    SampleFresh(sha, "a\0b", "c", 1, "a", "b\0c");
    SampleAcceptable("a", "", "b\0c", "2");
    SampleAccepted(sha, l, "a", "", "b\0c", "2", "e2", 2);
    AppendVerifiesExactly(sha, l, second, Env("e2", 2, "", true));
    SharedChainKey(l.events);
  }

  lemma SharedChainKey(events: seq<RawEvent>)
    requires |events| == 1 && InChain(events[0], "a\0b", "c")
    ensures !HeadIsChainEnd(events, "a", "b\0c")
  {
    assert ChainKey("a\0b", "c") == ChainKey("a", "b\0c");
    assert HeadFor(events[..0], "a", "b\0c") == None;
  }

  lemma OneRowHead(events: seq<RawEvent>, source: string, session: string)
    requires |events| == 1 && InChain(events[0], source, session)
    ensures HeadIsChainEnd(events, source, session) && HeadFor(events, source, session) == Some(events[0])
  {
    assert events[..0] == [];
  }

  // Three events of one chain, the second received while the clock stood back.
  lemma ClockStepBackBreaks(sha: Sha)
    requires Digesting(sha)
    ensures var l1 := Append(sha, EMPTY, Sample("a", "", "s", "1"), Env("e1", 2, "", true));
            var l2 := Append(sha, l1, Sample("a", "", "s", "2"), Env("e2", 1, "", true));
            var l3 := Append(sha, l2, Sample("a", "", "s", "3"), Env("e3", 3, "", true));
            && LedgerVerifies(sha, l2.events, "")
            && |l3.events| == 3 && !LedgerVerifies(sha, l3.events, "")
  {
    hide AppendOutcome;
    hide Append;
    hide Acceptable;
    hide Identity;
    hide LedgerVerifies;
    hide TrimSpace;
    hide EventFor;
    hide ChainKey;
    var i2, i3 := Sample("a", "", "s", "2"), Sample("a", "", "s", "3");
    var l1 := Append(sha, EMPTY, Sample("a", "", "s", "1"), Env("e1", 2, "", true));
    var l2 := Append(sha, l1, i2, Env("e2", 1, "", true));
    Literals();
    SampleFresh(sha, "a", "s", 2, "a", "s");
    OneRowHead(l1.events, "a", "s");
    SampleAppended(sha, l1, "a", "s", "2", "e2", 1);
    AppendDedup(sha, l1, Arrival(i2, Env("e2", 1, "", true)), Identity(sha, i3));
    SampleIdentities(sha, "a", "", "s", "2", "a", "", "s", "3");
    assert !HasId(l2.events, "e3");
    SampleAcceptable("a", "", "s", "3");
    SampleAccepted(sha, l2, "a", "", "s", "3", "e3", 3);
    ClockStepBackBreaksNext(sha, l1, Arrival(i2, Env("e2", 1, "", true)), Arrival(i3, Env("e3", 3, "", true)));
    AcceptedGrows(sha, l2, Arrival(i3, Env("e3", 3, "", true)));
  }
}
