/** What an append and a verification of the ledger do, column by column and over whole
    runs (internal/storage/sqlite/store.go). */
module LedgerEffects {
  import opened Basics
  import opened Text
  import opened CanonicalJson
  import opened AuditChain
  import opened RawLedger
  import opened LedgerRuns

  // ---- which arrivals are copies -----------------------------------------------------

  function Given(text: string, default: string): string {
    if text == "" then default else text
  }

  function TimeGiven(a: RawInput): string {
    if a.occurred && !a.omitOccurredAt then a.body.occurredAt else ""
  }

  // Two inputs are the same event: they name it alike, within one source and session,
  // or neither names it and all their columns agree, missing ones by their defaults.
  predicate SameEvent(a: RawInput, b: RawInput) {
    if TrimSpace(a.identity) != "" || TrimSpace(b.identity) != "" then
      && TrimSpace(a.identity) == TrimSpace(b.identity)
      && a.body.source == b.body.source && a.body.session == b.body.session
    else
      && a.body.source == b.body.source && a.body.sourceVersion == b.body.sourceVersion
      && a.body.session == b.body.session && a.body.eventType == b.body.eventType && TimeGiven(a) == TimeGiven(b)
      && a.body.project == b.body.project && a.body.location == b.body.location
      && a.body.workContext == b.body.workContext
      && Given(a.body.resolution, "unresolved") == Given(b.body.resolution, "unresolved")
      && Given(a.body.confidence, "unknown") == Given(b.body.confidence, "unknown")
      && Given(a.body.evidence, "{}") == Given(b.body.evidence, "{}")
      && Given(a.body.payload, "{}") == Given(b.body.payload, "{}")
  }

  lemma SameEventExactly(sha: Sha, a: RawInput, b: RawInput)
    requires Digesting(sha)
    ensures Identity(sha, a) == Identity(sha, b) <==> SameEvent(a, b)
  {
    hide TrimSpace;
    hide Identity;
    IdentityExact(sha, a, b);
    var x, y := IdentityBody(a), IdentityBody(b);
    assert x == y <==> && x.source == y.source && x.sourceVersion == y.sourceVersion && x.session == y.session
                       && x.eventType == y.eventType && x.occurredAt == y.occurredAt && x.project == y.project
                       && x.location == y.location && x.workContext == y.workContext
                       && x.resolution == y.resolution && x.confidence == y.confidence
                       && x.evidence == y.evidence && x.payload == y.payload;
  }

  // ---- which arrivals are accepted ---------------------------------------------------

  lemma AcceptedSequence(sha: Sha, l: Ledger, a: Arrival)
    requires AppendOutcome(sha, l, a.input, a.env).Accepted?
    ensures var after := Append(sha, l, a.input, a.env).events;
            |after| == |l.events| + 1 && after[..|l.events|] == l.events
            && after[|l.events|].sequence == MaxSequence(l.events) + 1
  {
    hide Identity;
    hide MaxSequence;
    hide HeadFor;
    hide EventHash;
    hide HashedBody;
    hide TrimSpace;
  }

  predicate Numbered(events: seq<RawEvent>) {
    forall j :: 0 <= j < |events| ==> events[j].sequence == j + 1
  }

  lemma {:induction false} NumberedMax(events: seq<RawEvent>)
    requires Numbered(events)
    ensures MaxSequence(events) == |events|
  {
    if |events| > 1 {
      NumberedMax(events[..|events| - 1]);
    }
  }

  lemma AppendNumbers(sha: Sha, l: Ledger, a: Arrival)
    requires Numbered(l.events)
    ensures Numbered(Append(sha, l, a.input, a.env).events)
  {
    hide Append;
    hide AppendOutcome;
    NumberedMax(l.events);
    if AppendOutcome(sha, l, a.input, a.env).Accepted? {
      AcceptedSequence(sha, l, a);
      var after := Append(sha, l, a.input, a.env).events;
      assert forall j :: 0 <= j < |l.events| ==> after[j] == l.events[j];
    } else {
      SuppressedKeepsEvents(sha, l, a);
    }
  }

  // Whatever arrives, the stored events are numbered from one without a gap.
  lemma {:induction false} RunNumbers(sha: Sha, arrivals: seq<Arrival>)
    ensures Numbered(Run(sha, EMPTY, arrivals).events)
  {
    hide Append;
    if arrivals != [] {
      RunNumbers(sha, arrivals[..|arrivals| - 1]);
      AppendNumbers(sha, Run(sha, EMPTY, arrivals[..|arrivals| - 1]), arrivals[|arrivals| - 1]);
    }
  }

  // Main result on accepting: after any run an arrival becomes the next event exactly
  // when it names its source and type, a boundary event brings its marker, a marker that
  // says where it stands is right, its keys resolve, its id is new, and no arrival that
  // was accepted is the same event.
  lemma AcceptedExactly(sha: Sha, arrivals: seq<Arrival>, a: Arrival, n: int)
    requires Digesting(sha)
    ensures var events := Run(sha, EMPTY, arrivals).events;
            AppendOutcome(sha, Run(sha, EMPTY, arrivals), a.input, a.env) == Accepted(a.env.id, n) <==>
              && n == |events| + 1
              && TrimSpace(a.input.body.source) != "" && TrimSpace(a.input.body.eventType) != ""
              && (a.input.body.source == "qlog.acceptance" && a.input.body.eventType == "acceptance.boundary.v1" ==>
                    a.input.marker.Some?)
              && (a.input.marker.Some? ==>
                    a.input.marker.value.eventSequence == 0 || a.input.marker.value.eventSequence == |events|)
              && a.env.keysResolve && (forall j :: 0 <= j < |events| ==> events[j].id != a.env.id)
              && forall k :: 0 <= k < |arrivals| && AcceptedAt(sha, arrivals, k) ==>
                   !SameEvent(arrivals[k].input, a.input)
  {
    hide Identity;
    hide Run;
    hide AcceptedAt;
    hide SameEvent;
    hide TrimSpace;
    hide MaxSequence;
    RunNumbers(sha, arrivals);
    NumberedMax(Run(sha, EMPTY, arrivals).events);
    var identity := Identity(sha, a.input);
    DedupRemembers(sha, arrivals, identity);
    forall k | 0 <= k < |arrivals|
      ensures Introduced(sha, arrivals, k, identity) <==>
              AcceptedAt(sha, arrivals, k) && SameEvent(arrivals[k].input, a.input)
    {
      SameEventExactly(sha, arrivals[k].input, a.input);
    }
  }

  // ---- what is remembered of copies ---------------------------------------------------

  // The copies of an event among some arrivals: how many were suppressed into it, and
  // when the last of them came.
  function Copies(sha: Sha, arrivals: seq<Arrival>, id: string): nat {
    if arrivals == [] then 0
    else
      var init, last := arrivals[..|arrivals| - 1], arrivals[|arrivals| - 1];
      Copies(sha, init, id)
      + if AppendOutcome(sha, Run(sha, EMPTY, init), last.input, last.env) == Suppressed(id) then 1 else 0
  }

  function LastReceived(sha: Sha, arrivals: seq<Arrival>, id: string, first: int): int {
    if arrivals == [] then first
    else
      var init, last := arrivals[..|arrivals| - 1], arrivals[|arrivals| - 1];
      if AppendOutcome(sha, Run(sha, EMPTY, init), last.input, last.env) == Suppressed(id) then last.env.now
      else LastReceived(sha, init, id, first)
  }

  lemma AppendCounts(sha: Sha, l: Ledger, a: Arrival, identity: string)
    ensures var before, after := l.dedup, Append(sha, l, a.input, a.env).dedup;
            var outcome := AppendOutcome(sha, l, a.input, a.env);
            && (outcome.Accepted? && Identity(sha, a.input) == identity ==>
                  after[identity] == Dedup(a.env.id, a.input.body.source, a.env.now, a.env.now, 0))
            && (outcome.Suppressed? && Identity(sha, a.input) == identity ==>
                  && identity in before && outcome.existing == before[identity].eventId
                  && after[identity] == Dedup(before[identity].eventId, before[identity].source,
                                              before[identity].firstReceived, a.env.now,
                                              before[identity].suppressions + 1))
            && (identity in before && Identity(sha, a.input) != identity ==> after[identity] == before[identity])
            && (identity in before && Identity(sha, a.input) == identity ==> !outcome.Accepted?)
            && (outcome.Failed? ==> after == before)
  {
    hide EventFor;
    hide Identity;
    hide Acceptable;
    hide Stale;
    hide HasId;
    hide MaxSequence;
  }

  // No two identities are remembered under one event.
  lemma {:induction false} IdentitiesApart(sha: Sha, arrivals: seq<Arrival>, x: string, y: string)
    requires var d := Run(sha, EMPTY, arrivals).dedup; x in d && y in d && d[x].eventId == d[y].eventId
    ensures x == y
  {
    hide Identity;
    hide Run;
    hide AcceptedAt;
    DedupRemembers(sha, arrivals, x);
    DedupRemembers(sha, arrivals, y);
    var j :| Introduced(sha, arrivals, j, x);
    var k :| Introduced(sha, arrivals, k, y);
    AcceptedIdsDiffer(sha, arrivals, j, k);
  }

  lemma AcceptedIdsDiffer(sha: Sha, arrivals: seq<Arrival>, j: nat, k: nat)
    requires j < |arrivals| && k < |arrivals| && AcceptedAt(sha, arrivals, j) && AcceptedAt(sha, arrivals, k)
    requires arrivals[j].env.id == arrivals[k].env.id
    ensures j == k
  {
    hide Run;
    hide RowOf;
    hide AcceptedAt;
    if j < k {
      AcceptedIdIsNew(sha, arrivals, j, k);
    } else if k < j {
      AcceptedIdIsNew(sha, arrivals, k, j);
    }
  }

  lemma AcceptedIdIsNew(sha: Sha, arrivals: seq<Arrival>, j: nat, k: nat)
    requires j < k < |arrivals| && AcceptedAt(sha, arrivals, j) && AcceptedAt(sha, arrivals, k)
    ensures arrivals[j].env.id != arrivals[k].env.id
  {
    hide Run;
    hide RowOf;
    hide Identity;
    hide MaxSequence;
    hide Acceptable;
    hide Stale;
    var init := arrivals[..k];
    assert init[..j] == arrivals[..j];
    var i := AcceptedIsStored(sha, init, j);
    RowOfId(Run(sha, EMPTY, init).events[i], init[j]);
  }

  // Main result on copies: after any run the entry of an accepted arrival has its id,
  // source and time, the number of arrivals suppressed into it since, and the time of
  // the last of those.
  lemma {:induction false} CopiesAreCounted(sha: Sha, arrivals: seq<Arrival>, k: nat)
    requires k < |arrivals| && AcceptedAt(sha, arrivals, k)
    ensures var identity, dedup := Identity(sha, arrivals[k].input), Run(sha, EMPTY, arrivals).dedup;
            var id, now := arrivals[k].env.id, arrivals[k].env.now;
            && identity in dedup
            && dedup[identity] == Dedup(id, arrivals[k].input.body.source, now,
                                        LastReceived(sha, arrivals, id, now), Copies(sha, arrivals, id))
  {
    hide Identity;
    hide AppendOutcome;
    hide Append;
    hide Run;
    hide AcceptedAt;
    var init, a := arrivals[..|arrivals| - 1], arrivals[|arrivals| - 1];
    assert arrivals == init + [a];
    var identity, id := Identity(sha, arrivals[k].input), arrivals[k].env.id;
    if k < |init| {
      EarlierAccepted(sha, init, a, k);
      CopiesAreCounted(sha, init, k);
      EntryNext(sha, init, a, identity);
      CopiesNext(sha, init, a, id, arrivals[k].env.now);
    } else {
      assert arrivals[..k] == init;
      RunNext(sha, EMPTY, init, a);
      AppendCounts(sha, Run(sha, EMPTY, init), a, identity);
      AppendDedup(sha, Run(sha, EMPTY, init), a, identity);
      LastAccepted(sha, arrivals, k);
      NewIdNotCopied(sha, init, id, a);
      CopiesNext(sha, init, a, id, a.env.now);
    }
  }

  lemma EntryNext(sha: Sha, arrivals: seq<Arrival>, a: Arrival, identity: string)
    requires identity in Run(sha, EMPTY, arrivals).dedup
    ensures var d := Run(sha, EMPTY, arrivals).dedup[identity];
            var after := Run(sha, EMPTY, arrivals + [a]).dedup;
            && identity in after
            && after[identity] ==
               if AppendOutcome(sha, Run(sha, EMPTY, arrivals), a.input, a.env) == Suppressed(d.eventId)
               then d.(lastReceived := a.env.now, suppressions := d.suppressions + 1) else d
  {
    hide Identity;
    hide Run;
    hide AppendOutcome;
    hide Append;
    RunNext(sha, EMPTY, arrivals, a);
    SuppressedIntoExactly(sha, arrivals, a, identity);
    AppendCounts(sha, Run(sha, EMPTY, arrivals), a, identity);
    AppendDedup(sha, Run(sha, EMPTY, arrivals), a, identity);
  }

  lemma CopiesNext(sha: Sha, arrivals: seq<Arrival>, a: Arrival, id: string, first: int)
    ensures var copied := AppendOutcome(sha, Run(sha, EMPTY, arrivals), a.input, a.env) == Suppressed(id);
            && Copies(sha, arrivals + [a], id) == Copies(sha, arrivals, id) + (if copied then 1 else 0)
            && LastReceived(sha, arrivals + [a], id, first)
               == if copied then a.env.now else LastReceived(sha, arrivals, id, first)
  {
    hide AppendOutcome;
    hide Run;
    assert (arrivals + [a])[..|arrivals|] == arrivals;
  }

  lemma SuppressedIntoExactly(sha: Sha, arrivals: seq<Arrival>, a: Arrival, identity: string)
    requires identity in Run(sha, EMPTY, arrivals).dedup
    ensures var l := Run(sha, EMPTY, arrivals);
            var outcome := AppendOutcome(sha, l, a.input, a.env);
            outcome == Suppressed(l.dedup[identity].eventId) <==>
              outcome.Suppressed? && Identity(sha, a.input) == identity
  {
    hide Identity;
    hide Run;
    hide AppendOutcome;
    hide Append;
    var l := Run(sha, EMPTY, arrivals);
    AppendCounts(sha, l, a, Identity(sha, a.input));
    if AppendOutcome(sha, l, a.input, a.env) == Suppressed(l.dedup[identity].eventId) {
      IdentitiesApart(sha, arrivals, identity, Identity(sha, a.input));
    }
  }

  lemma LastAccepted(sha: Sha, arrivals: seq<Arrival>, k: nat)
    requires k < |arrivals| && AcceptedAt(sha, arrivals, k)
    ensures AppendOutcome(sha, Run(sha, EMPTY, arrivals[..k]), arrivals[k].input, arrivals[k].env)
            == Accepted(arrivals[k].env.id, MaxSequence(Run(sha, EMPTY, arrivals[..k]).events) + 1)
  {
    hide Run;
    hide Identity;
    hide MaxSequence;
    hide Acceptable;
    hide Stale;
  }

  lemma EarlierAccepted(sha: Sha, init: seq<Arrival>, a: Arrival, k: nat)
    requires k < |init| && AcceptedAt(sha, init + [a], k)
    ensures AcceptedAt(sha, init, k)
  {
    hide Run;
    hide AppendOutcome;
    assert (init + [a])[..k] == init[..k];
  }

  // Nothing was suppressed into an id before it was taken.
  lemma {:induction false} NewIdNotCopied(sha: Sha, arrivals: seq<Arrival>, id: string, a: Arrival)
    requires AppendOutcome(sha, Run(sha, EMPTY, arrivals), a.input, a.env).Accepted? && a.env.id == id
    ensures forall n: nat :: n <= |arrivals| ==> Copies(sha, arrivals[..n], id) == 0
    ensures Copies(sha, arrivals, id) == 0 && forall first :: LastReceived(sha, arrivals, id, first) == first
  {
    forall n: nat | n <= |arrivals|
      ensures Copies(sha, arrivals[..n], id) == 0
      ensures forall first :: LastReceived(sha, arrivals[..n], id, first) == first
    {
      NoCopyYet(sha, arrivals, n, id, a);
    }
    assert arrivals[..|arrivals|] == arrivals;
  }

  lemma {:induction false} NoCopyYet(sha: Sha, arrivals: seq<Arrival>, n: nat, id: string, a: Arrival)
    requires n <= |arrivals|
    requires AppendOutcome(sha, Run(sha, EMPTY, arrivals), a.input, a.env).Accepted? && a.env.id == id
    ensures Copies(sha, arrivals[..n], id) == 0 && forall first :: LastReceived(sha, arrivals[..n], id, first) == first
  {
    hide AppendOutcome;
    hide Run;
    if n > 0 {
      NoCopyYet(sha, arrivals, n - 1, id, a);
      assert arrivals[..n][..n - 1] == arrivals[..n - 1];
      NotSuppressedInto(sha, arrivals, n - 1, id, a);
    }
  }

  lemma NotSuppressedInto(sha: Sha, arrivals: seq<Arrival>, n: nat, id: string, a: Arrival)
    requires n < |arrivals|
    requires AppendOutcome(sha, Run(sha, EMPTY, arrivals), a.input, a.env).Accepted? && a.env.id == id
    ensures AppendOutcome(sha, Run(sha, EMPTY, arrivals[..n]), arrivals[n].input, arrivals[n].env) != Suppressed(id)
  {
    hide AppendOutcome;
    hide Run;
    if AppendOutcome(sha, Run(sha, EMPTY, arrivals[..n]), arrivals[n].input, arrivals[n].env) == Suppressed(id) {
      var all := arrivals + [a];
      var k := CopiedFrom(sha, arrivals[..n], arrivals[n], id);
      assert arrivals[..n][..k] == all[..k] && arrivals[..n][k] == all[k];
      AcceptedSame(sha, arrivals[..n], all, k);
      AcceptedHere(sha, arrivals, a);
      AcceptedIdIsNew(sha, all, k, |arrivals|);
    }
  }

  lemma CopiedFrom(sha: Sha, arrivals: seq<Arrival>, a: Arrival, id: string) returns (k: nat)
    requires AppendOutcome(sha, Run(sha, EMPTY, arrivals), a.input, a.env) == Suppressed(id)
    ensures k < |arrivals| && AcceptedAt(sha, arrivals, k) && arrivals[k].env.id == id
  {
    hide Run;
    hide AcceptedAt;
    hide Append;
    hide AppendOutcome;
    hide Identity;
    var identity := Identity(sha, a.input);
    AppendCounts(sha, Run(sha, EMPTY, arrivals), a, identity);
    DedupRemembers(sha, arrivals, identity);
    var found :| Introduced(sha, arrivals, found, identity);
    k := found;
  }

  lemma AcceptedSame(sha: Sha, x: seq<Arrival>, y: seq<Arrival>, k: nat)
    requires k < |x| && k < |y| && x[..k] == y[..k] && x[k] == y[k] && AcceptedAt(sha, x, k)
    ensures AcceptedAt(sha, y, k)
  {
    hide Run;
    hide AppendOutcome;
  }

  lemma AcceptedHere(sha: Sha, arrivals: seq<Arrival>, a: Arrival)
    requires AppendOutcome(sha, Run(sha, EMPTY, arrivals), a.input, a.env).Accepted?
    ensures AcceptedAt(sha, arrivals + [a], |arrivals|)
  {
    hide Run;
    hide AppendOutcome;
    assert (arrivals + [a])[..|arrivals|] == arrivals;
  }

  // ---- heads and markers ----------------------------------------------------------------

  // The head of a chain is one of its rows, and no row of the chain was received later
  // or, at the same time, under a greater id.
  lemma {:induction false} HeadExactly(events: seq<RawEvent>, source: string, session: string)
    ensures var head := HeadFor(events, source, session);
            && (head.None? <==>
                  forall e :: e in events ==> !(e.body.source == source && e.body.session == session))
            && (head.Some? ==>
                  && head.value in events && head.value.body.source == source && head.value.body.session == session
                  && forall e :: e in events && e.body.source == source && e.body.session == session ==>
                       e.createdAt < head.value.createdAt
                       || (e.createdAt == head.value.createdAt && StringLe(e.id, head.value.id)))
  {
    hide StringLe;
    if events != [] {
      var init, last := events[..|events| - 1], events[|events| - 1];
      assert events == init + [last];
      HeadExactly(init, source, session);
      StringLeTotal(last.id, last.id);
      var best := HeadFor(init, source, session);
      if best.Some? {
        StringLeTotal(last.id, best.value.id);
        forall e | e in init && StringLe(e.id, best.value.id) && StringLe(best.value.id, last.id)
          ensures StringLe(e.id, last.id)
        {
          StringLeTransitive(e.id, best.value.id, last.id);
        }
      }
    }
  }

  // A stored marker says everything it was given, and where it stands.
  lemma MarkerTextInjective(m: Marker, n: Marker)
    ensures MarkerText(m) == MarkerText(n) <==> m == n
  {
    hide Object;
    var keys := ["boundary_id", "challenge", "ledger_position_sha256", "ledger_event_count", "ledger_event_sequence"];
    var v := [Str(m.boundaryId), Str(m.challenge), Str(m.position), Num(m.eventCount), Num(m.eventSequence)];
    var w := [Str(n.boundaryId), Str(n.challenge), Str(n.position), Num(n.eventCount), Num(n.eventSequence)];
    ObjectInjective(keys, v, w);
    if v == w {
      assert v[0] == w[0] && v[1] == w[1] && v[2] == w[2] && v[3] == w[3] && v[4] == w[4];
    }
  }

  // ---- what is hashed ---------------------------------------------------------------------

  lemma {:induction false} PairsAt(keys: seq<string>, values: seq<Value>)
    requires |keys| == |values|
    ensures |Pairs(keys, values)| == |keys|
    ensures forall k :: 0 <= k < |keys| ==> Pairs(keys, values)[k] == Pair(keys[k], values[k])
  {
    if keys != [] {
      PairsAt(keys[1..], values[1..]);
      forall k | 0 <= k < |keys| ensures Pairs(keys, values)[k] == Pair(keys[k], values[k]) {
        if k > 0 {
          assert Pairs(keys, values)[k] == Pairs(keys[1..], values[1..])[k - 1];
        }
      }
    }
  }

  // The twelve columns that are hashed or identify an event, each under its name.
  predicate NamesColumns(pairs: seq<Pair>, from: nat, b: Body) {
    && |pairs| == from + 12
    && pairs[from] == Pair("Source", Str(b.source)) && pairs[from + 1] == Pair("SourceVersion", Str(b.sourceVersion))
    && pairs[from + 2] == Pair("SessionID", Str(b.session)) && pairs[from + 3] == Pair("EventType", Str(b.eventType))
    && pairs[from + 4] == Pair("OccurredAt", Str(b.occurredAt)) && pairs[from + 5] == Pair("ProjectID", Str(b.project))
    && pairs[from + 6] == Pair("ProjectLocationID", Str(b.location))
    && pairs[from + 7] == Pair("WorkContextID", Str(b.workContext))
    && pairs[from + 8] == Pair("ResolutionMethod", Str(b.resolution))
    && pairs[from + 9] == Pair("ResolutionConfidence", Str(b.confidence))
    && pairs[from + 10] == Pair("EvidenceJSON", Str(b.evidence)) && pairs[from + 11] == Pair("Payload", Str(b.payload))
  }

  // Main result on the hashed text: read back as JSON it is an object that names its
  // version, the event's number and the twelve columns, in this order.
  lemma CanonicalReadsBack(b: Body, sequence: int)
    ensures var r := ReadObject(Canonical(b, sequence));
            && r.Got? && r.rest == "" && NamesColumns(r.value, 2, b)
            && r.value[0] == Pair("canonical_version", Num(2)) && r.value[1] == Pair("event_sequence", Num(sequence))
  {
    hide Object;
    hide ReadObject;
    hide Pairs;
    hide BodyValues;
    hide NamesColumns;
    var values := [Num(2), Num(sequence)] + BodyValues(b);
    ObjectReadsBack(KEYS, values);
    PairsAt(KEYS, values);
    var pairs := Pairs(KEYS, values);
    assert KEYS[2..] == BODY_KEYS && values[2..] == BodyValues(b);
    forall k | 0 <= k < 12 ensures pairs[2 + k] == Pair(BODY_KEYS[k], BodyValues(b)[k]) {
      assert KEYS[2 + k] == KEYS[2..][k] && values[2 + k] == values[2..][k];
    }
    ColumnsNamed(pairs, 2, b);
    assert KEYS[0] == "canonical_version" && KEYS[1] == "event_sequence";
  }

  lemma ColumnsNamed(pairs: seq<Pair>, from: nat, b: Body)
    requires |pairs| == from + 12
    requires forall k :: 0 <= k < 12 ==> pairs[from + k] == Pair(BODY_KEYS[k], BodyValues(b)[k])
    ensures NamesColumns(pairs, from, b)
  {
    var keys, v := BODY_KEYS, BodyValues(b);
    assert pairs[from + 0] == Pair(keys[0], v[0]) && pairs[from + 1] == Pair(keys[1], v[1]);
    assert pairs[from + 2] == Pair(keys[2], v[2]) && pairs[from + 3] == Pair(keys[3], v[3]);
    assert pairs[from + 4] == Pair(keys[4], v[4]) && pairs[from + 5] == Pair(keys[5], v[5]);
    assert pairs[from + 6] == Pair(keys[6], v[6]) && pairs[from + 7] == Pair(keys[7], v[7]);
    assert pairs[from + 8] == Pair(keys[8], v[8]) && pairs[from + 9] == Pair(keys[9], v[9]);
    assert pairs[from + 10] == Pair(keys[10], v[10]) && pairs[from + 11] == Pair(keys[11], v[11]);
  }

  // An event's hash is that of its chain, its text and the previous hash, on lines of
  // their own.
  lemma EventHashSpelled(sha: Sha, b: Body, sequence: int, previousHash: string)
    ensures EventHash(sha, b, sequence, previousHash) ==
            sha(b.source + "\0" + b.session + "\n" + Canonical(b, sequence) + "\n" + previousHash)
  {
    hide Canonical;
  }

  // And so is what identifies an event that names no upstream identity.
  lemma IdentityReadsBack(sha: Sha, input: RawInput) returns (text: string)
    requires TrimSpace(input.identity) == ""
    ensures Identity(sha, input) == "sha256:" + sha(text)
    ensures var r := ReadObject(text);
            var b := input.body;
            && r.Got? && r.rest == ""
            && NamesColumns(r.value, 0, Body(b.source, b.sourceVersion, b.session, b.eventType, TimeGiven(input),
                                             b.project, b.location, b.workContext,
                                             Given(b.resolution, "unresolved"), Given(b.confidence, "unknown"),
                                             Given(b.evidence, "{}"), Given(b.payload, "{}")))
  {
    hide Object;
    hide ReadObject;
    hide Pairs;
    hide TrimSpace;
    hide BodyValues;
    hide NamesColumns;
    var body := IdentityBody(input);
    var values := BodyValues(body);
    text := Object(BODY_KEYS, values);
    ObjectReadsBack(BODY_KEYS, values);
    PairsAt(BODY_KEYS, values);
    ColumnsNamed(Pairs(BODY_KEYS, values), 0, body);
  }

  // An upstream identity is that of its source and session.
  lemma UpstreamReadsBack(sha: Sha, input: RawInput) returns (text: string)
    requires TrimSpace(input.identity) != ""
    ensures Identity(sha, input) == "upstream-sha256:" + sha(text)
    ensures ReadObject(text) == Got([Pair("Source", Str(input.body.source)), Pair("SessionID", Str(input.body.session)),
                                     Pair("Identity", Str(TrimSpace(input.identity)))], "")
  {
    hide Object;
    hide ReadObject;
    hide Pairs;
    hide TrimSpace;
    var keys := ["Source", "SessionID", "Identity"];
    var values := [Str(input.body.source), Str(input.body.session), Str(TrimSpace(input.identity))];
    text := Object(keys, values);
    ObjectReadsBack(keys, values);
    PairsAt(keys, values);
    assert Pairs(keys, values) == [Pair("Source", Str(input.body.source)), Pair("SessionID", Str(input.body.session)),
                                   Pair("Identity", Str(TrimSpace(input.identity)))];
  }

  // ---- what verification accepts ----------------------------------------------------------

  predicate SameChain(e: RawEvent, f: RawEvent) {
    ChainKey(e.body.source, e.body.session) == ChainKey(f.body.source, f.body.session)
  }

  // Row j is the last one of row i's chain before it.
  predicate IsBefore(rows: seq<RawEvent>, j: nat, i: nat)
    requires j < i < |rows|
  {
    SameChain(rows[j], rows[i]) && forall m :: j < m < i ==> !SameChain(rows[m], rows[i])
  }

  // Row i carries the hash of the row before it in its chain, and of itself.
  predicate Intact(sha: Sha, rows: seq<RawEvent>, i: nat)
    requires i < |rows|
  {
    && (forall j: nat :: j < i && IsBefore(rows, j, i) ==> rows[i].previousHash == rows[j].hash)
    && ((forall j :: 0 <= j < i ==> !SameChain(rows[j], rows[i])) ==> rows[i].previousHash == "")
    && rows[i].hash == EventHash(sha, rows[i].body, rows[i].sequence, rows[i].previousHash)
  }

  lemma {:induction false} LastHashAt(rows: seq<RawEvent>, n: nat, i: nat) returns (j: int)
    requires n <= i < |rows|
    ensures -1 <= j < n && forall m :: j < m < n ==> !SameChain(rows[m], rows[i])
    ensures j >= 0 ==> SameChain(rows[j], rows[i])
    ensures LastHash(Records(rows[..n]), ChainKey(rows[i].body.source, rows[i].body.session)) ==
            if j < 0 then "" else rows[j].hash
  {
    hide ChainKey;
    hide Canonical;
    j := -1;
    if n > 0 {
      assert rows[..n] == rows[..n - 1] + [rows[n - 1]];
      RecordsAppend(rows[..n - 1], rows[n - 1]);
      LastHashNext(Records(rows[..n - 1]), ToRecord(rows[n - 1]),
        ChainKey(rows[i].body.source, rows[i].body.session));
      j := n - 1;
      if !SameChain(rows[n - 1], rows[i]) {
        j := LastHashAt(rows, n - 1, i);
      }
    }
  }

  lemma IntactExactly(sha: Sha, rows: seq<RawEvent>, i: nat)
    requires i < |rows|
    ensures Intact(sha, rows, i) <==> Follows(sha, Records(rows[..i]), ToRecord(rows[i]))
  {
    hide ChainKey;
    hide Canonical;
    hide Hash;
    hide Records;
    hide LastHash;
    var j := LastHashAt(rows, i, i);
    if j >= 0 {
      assert IsBefore(rows, j, i);
    }
  }

  lemma {:induction false} RecordsAt(rows: seq<RawEvent>, i: nat)
    requires i < |rows|
    ensures |Records(rows)| == |rows| && Records(rows)[i] == ToRecord(rows[i])
    ensures Records(rows)[..i] == Records(rows[..i])
    decreases |rows|
  {
    hide ToRecord;
    var init := rows[..|rows| - 1];
    if init != [] {
      RecordsAt(init, if i < |init| then i else |init| - 1);
    }
    if i < |init| {
      assert init[..i] == rows[..i];
      assert Records(rows)[..i] == Records(init)[..i];
    } else {
      assert Records(rows)[..i] == Records(init);
    }
  }

  // Main result on verifying: a listing is accepted exactly when its numbers ascend,
  // without a gap in the whole ledger, and each row is intact.
  lemma RowsVerifyExactly(sha: Sha, rows: seq<RawEvent>, whole: bool)
    ensures RowsVerify(sha, rows, whole) <==>
            && (forall i :: 0 <= i < |rows| ==> Intact(sha, rows, i))
            && (forall i :: 0 < i < |rows| ==> rows[i - 1].sequence < rows[i].sequence)
            && (rows != [] ==> rows[0].sequence > 0)
            && (whole ==> forall i :: 0 <= i < |rows| ==> rows[i].sequence == i + 1)
  {
    hide Intact;
    hide Records;
    hide Follows;
    hide ToRecord;
    if rows == [] { NoRecords(); } else { RecordsAt(rows, 0); }
    forall i: nat | i < |rows|
      ensures Intact(sha, rows, i) <==> Follows(sha, Records(rows)[..i], Records(rows)[i])
    {
      IntactExactly(sha, rows, i);
      RecordsAt(rows, i);
    }
    SequenceExactly(rows, whole);
    hide InSequence;
  }

  lemma NoRecords()
    ensures Records([]) == []
  {
  }

  lemma SequenceExactly(rows: seq<RawEvent>, whole: bool)
    ensures InSequence(rows, whole) <==>
            && (forall i :: 0 < i < |rows| ==> rows[i - 1].sequence < rows[i].sequence)
            && (rows != [] ==> rows[0].sequence > 0)
            && (whole ==> forall i :: 0 <= i < |rows| ==> rows[i].sequence == i + 1)
  {
    if InSequence(rows, whole) {
      forall i | 0 < i < |rows| ensures rows[i - 1].sequence < rows[i].sequence {
        assert SequenceContinues(rows, i, whole);
      }
      if rows != [] {
        assert SequenceContinues(rows, 0, whole);
      }
      if whole {
        forall i: nat | i < |rows| ensures rows[i].sequence == i + 1 {
          WholeSequence(rows, i);
        }
      }
    }
  }

  // A session's listing is the events of that session, each as often as it is stored.
  lemma {:induction false} OfSessionExactly(events: seq<RawEvent>, session: string, e: RawEvent)
    ensures multiset(OfSession(events, session))[e] == if e.body.session == session then multiset(events)[e] else 0
  {
    if events != [] {
      var init, last := events[..|events| - 1], events[|events| - 1];
      assert events == init + [last];
      OfSessionExactly(init, session, e);
    }
  }
}
