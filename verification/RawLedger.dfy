/** The append-only event ledger: one global sequence, one hash chain per source
    and session, and deduplication by ingestion identity
    (internal/storage/sqlite/store.go). */
module RawLedger {
  import opened Basics
  import opened Text
  import opened CanonicalJson
  import opened AuditChain

  const BOUNDARY_SOURCE := "qlog.acceptance"
  const BOUNDARY_TYPE := "acceptance.boundary.v1"

  // The hashed columns of an event; an empty session or project is SQL NULL, and
  // times are their fixed-width UTC text.
  datatype Body = Body(
    source: string, sourceVersion: string, session: string, eventType: string, occurredAt: string,
    project: string, location: string, workContext: string,
    resolution: string, confidence: string, evidence: string, payload: string)

  datatype Links = Links(trace: string, span: string, parent: string)

  datatype RawEvent = RawEvent(
    id: string, body: Body, links: Links, previousHash: string, hash: string, createdAt: int, sequence: int)

  datatype Marker = Marker(boundaryId: string, challenge: string, position: string, eventCount: int, eventSequence: int)

  // An input whose payload and evidence are already sanitized. `occurred` is
  // false for the zero time; `marker` is the decoded payload of a boundary marker.
  datatype RawInput = RawInput(
    body: Body, occurred: bool, omitOccurredAt: bool, identity: string, links: Links, marker: Option<Marker>)

  // What the store takes from outside: a fresh id, the receive time, the text of
  // a clock reading, and whether the row's foreign keys resolve.
  datatype Env = Env(id: string, now: int, clockText: string, keysResolve: bool)

  datatype Dedup = Dedup(eventId: string, source: string, firstReceived: int, lastReceived: int, suppressions: nat)

  // Events are listed in sequence order.
  datatype Ledger = Ledger(events: seq<RawEvent>, dedup: map<string, Dedup>)

  datatype AppendResult = Accepted(id: string, sequence: int) | Suppressed(existing: string) | Failed

  const EMPTY := Ledger([], map[])

  // ---- canonical text --------------------------------------------------------

  const KEYS := ["canonical_version", "event_sequence", "Source", "SourceVersion", "SessionID", "EventType",
                 "OccurredAt", "ProjectID", "ProjectLocationID", "WorkContextID", "ResolutionMethod",
                 "ResolutionConfidence", "EvidenceJSON", "Payload"]

  function BodyValues(b: Body): (v: seq<Value>)
    ensures |v| == 12 && forall k :: 0 <= k < 12 ==> v[k].Str?
  {
    [Str(b.source), Str(b.sourceVersion), Str(b.session), Str(b.eventType), Str(b.occurredAt), Str(b.project),
     Str(b.location), Str(b.workContext), Str(b.resolution), Str(b.confidence), Str(b.evidence), Str(b.payload)]
  }

  lemma BodyValuesInjective(b: Body, c: Body)
    ensures BodyValues(b) == BodyValues(c) <==> b == c
  {
    var v, w := BodyValues(b), BodyValues(c);
    if v == w {
      assert v[0] == w[0] && v[1] == w[1] && v[2] == w[2] && v[3] == w[3] && v[4] == w[4] && v[5] == w[5];
      assert v[6] == w[6] && v[7] == w[7] && v[8] == w[8] && v[9] == w[9] && v[10] == w[10] && v[11] == w[11];
    }
  }

  // canonicalEventWithSequence.
  function Canonical(b: Body, sequence: int): string {
    Object(KEYS, [Num(2), Num(sequence)] + BodyValues(b))
  }

  lemma CanonicalInjective(b: Body, i: int, c: Body, j: int)
    ensures Canonical(b, i) == Canonical(c, j) <==> b == c && i == j
  {
    hide Object;
    hide BodyValues;
    var v, w := [Num(2), Num(i)] + BodyValues(b), [Num(2), Num(j)] + BodyValues(c);
    ObjectInjective(KEYS, v, w);
    BodyValuesInjective(b, c);
    if v == w {
      assert v[1] == w[1];
      assert BodyValues(b) == v[2..] && BodyValues(c) == w[2..];
    }
  }

  lemma CanonicalOneLine(b: Body, sequence: int)
    ensures OneLine(Canonical(b, sequence))
  {
    ObjectOneLine(KEYS, [Num(2), Num(sequence)] + BodyValues(b));
  }

  function ChainKey(source: string, session: string): string {
    source + "\0" + session
  }

  predicate NulFree(s: string) {
    '\0' !in s
  }

  lemma ChainKeyInjective(source: string, session: string, other: string, another: string)
    requires NulFree(source) && NulFree(other)
    ensures ChainKey(source, session) == ChainKey(other, another) <==> source == other && session == another
  {
    if ChainKey(source, session) == ChainKey(other, another) {
      assert source + ['\0'] + session == other + ['\0'] + another;
      SplitAtFirst('\0', source, session, other, another);
    }
  }

  function EventHash(sha: Sha, b: Body, sequence: int, previousHash: string): string {
    Hash(sha, ChainKey(b.source, b.session), Canonical(b, sequence), previousHash)
  }

  lemma EventHashInjective(sha: Sha, b: Body, i: int, h: string, c: Body, j: int, g: string)
    requires Digesting(sha) && OneLine(h) && OneLine(g)
    ensures EventHash(sha, b, i, h) == EventHash(sha, c, j, g) <==> b == c && i == j && h == g
  {
    hide Hash;
    hide Canonical;
    CanonicalOneLine(b, i);
    CanonicalOneLine(c, j);
    CanonicalInjective(b, i, c, j);
    HashInjective(sha, ChainKey(b.source, b.session), Canonical(b, i), h,
                  ChainKey(c.source, c.session), Canonical(c, j), g);
  }

  // ---- verification ---------------------------------------------------------------

  function ToRecord(e: RawEvent): Record {
    Record(ChainKey(e.body.source, e.body.session), Canonical(e.body, e.sequence), e.previousHash, e.hash)
  }

  function Records(events: seq<RawEvent>): seq<Record> {
    if events == [] then [] else Records(events[..|events| - 1]) + [ToRecord(events[|events| - 1])]
  }

  lemma RecordsAppend(events: seq<RawEvent>, e: RawEvent)
    ensures Records(events + [e]) == Records(events) + [ToRecord(e)]
  {
    hide ToRecord;
    assert (events + [e])[..|events|] == events;
  }

  function SequenceBefore(events: seq<RawEvent>, i: nat): int
    requires i <= |events|
  {
    if i == 0 then 0 else events[i - 1].sequence
  }

  predicate SequenceContinues(events: seq<RawEvent>, i: nat, whole: bool)
    requires i < |events|
  {
    && SequenceBefore(events, i) < events[i].sequence
    && (whole ==> events[i].sequence == SequenceBefore(events, i) + 1)
  }

  predicate InSequence(events: seq<RawEvent>, whole: bool) {
    forall i :: 0 <= i < |events| ==> SequenceContinues(events, i, whole)
  }

  // What the verification of a listing accepts: sequence numbers that ascend, and
  // are contiguous in the whole ledger, and intact hash chains.
  predicate RowsVerify(sha: Sha, events: seq<RawEvent>, whole: bool) {
    InSequence(events, whole) && Verifies(sha, Records(events))
  }

  lemma {:induction false} WholeSequence(events: seq<RawEvent>, i: nat)
    requires InSequence(events, true) && i < |events|
    ensures events[i].sequence == i + 1
  {
    assert SequenceContinues(events, i, true);
    if i > 0 {
      WholeSequence(events, i - 1);
    }
  }

  lemma InSequenceNext(events: seq<RawEvent>, e: RawEvent, whole: bool)
    ensures InSequence(events + [e], whole) <==>
            && InSequence(events, whole)
            && SequenceBefore(events, |events|) < e.sequence
            && (whole ==> e.sequence == SequenceBefore(events, |events|) + 1)
  {
    var after := events + [e];
    forall i: nat | i < |events| ensures SequenceContinues(after, i, whole) <==> SequenceContinues(events, i, whole) {
      assert after[..|events|] == events;
      assert SequenceBefore(after, i) == SequenceBefore(events, i);
    }
    assert SequenceBefore(after, |events|) == SequenceBefore(events, |events|);
    if InSequence(after, whole) {
      assert SequenceContinues(after, |events|, whole);
      forall i | 0 <= i < |events| ensures SequenceContinues(events, i, whole) {
        assert SequenceContinues(after, i, whole);
      }
    }
  }

  lemma RowsVerifyNext(sha: Sha, events: seq<RawEvent>, e: RawEvent, whole: bool)
    ensures RowsVerify(sha, events + [e], whole) <==>
            && RowsVerify(sha, events, whole)
            && SequenceBefore(events, |events|) < e.sequence
            && (whole ==> e.sequence == SequenceBefore(events, |events|) + 1)
            && Follows(sha, Records(events), ToRecord(e))
  {
    hide InSequence;
    hide Verifies;
    hide Follows;
    hide ToRecord;
    InSequenceNext(events, e, whole);
    RecordsAppend(events, e);
    VerifiesNext(sha, Records(events), ToRecord(e));
  }

  lemma {:induction false} RowsVerifyPrefix(sha: Sha, events: seq<RawEvent>, n: nat, whole: bool)
    requires n <= |events| && RowsVerify(sha, events, whole)
    ensures RowsVerify(sha, events[..n], whole)
    decreases |events| - n
  {
    hide RowsVerify;
    hide Follows;
    hide ToRecord;
    hide Records;
    if n < |events| {
      RowsVerifyPrefix(sha, events, n + 1, whole);
      assert events[..n + 1] == events[..n] + [events[n]];
      RowsVerifyNext(sha, events[..n], events[n], whole);
    } else {
      assert events[..n] == events;
    }
  }

  lemma RowsRefuted(sha: Sha, events: seq<RawEvent>, n: nat, whole: bool)
    requires n <= |events| && !RowsVerify(sha, events[..n], whole)
    ensures !RowsVerify(sha, events, whole)
  {
    if RowsVerify(sha, events, whole) {
      RowsVerifyPrefix(sha, events, n, whole);
    }
  }

  // What the loop below has established after its first i rows.
  ghost predicate Passed(sha: Sha, events: seq<RawEvent>, i: nat, whole: bool, previous: map<string, string>,
      sequence: int)
    requires i <= |events|
  {
    && RowsVerify(sha, events[..i], whole)
    && sequence == SequenceBefore(events, i)
    && Remembers(previous, Records(events[..i]))
  }

  lemma PassedStart(sha: Sha, events: seq<RawEvent>, whole: bool)
    ensures Passed(sha, events, 0, whole, map[], 0)
  {
    RemembersNothing();
    assert events[..0] == [];
  }

  // The checks of one row.
  predicate RowAccepted(sha: Sha, e: RawEvent, whole: bool, sequence: int, previousHash: string) {
    && sequence < e.sequence && (whole ==> e.sequence == sequence + 1)
    && e.previousHash == previousHash
    && e.hash == Hash(sha, ChainKey(e.body.source, e.body.session), Canonical(e.body, e.sequence), e.previousHash)
  }

  lemma RowsVerifyWithRow(sha: Sha, events: seq<RawEvent>, e: RawEvent, whole: bool)
    requires RowsVerify(sha, events, whole)
    ensures RowsVerify(sha, events + [e], whole) <==>
            RowAccepted(sha, e, whole, SequenceBefore(events, |events|),
                        LastHash(Records(events), ChainKey(e.body.source, e.body.session)))
  {
    hide RowsVerify;
    hide Records;
    hide LastHash;
    hide Canonical;
    hide ChainKey;
    hide Hash;
    RowsVerifyNext(sha, events, e, whole);
  }

  // They decide whether the listing still verifies with the row.
  lemma PassedNext(sha: Sha, events: seq<RawEvent>, i: nat, whole: bool, previous: map<string, string>, sequence: int)
    requires i < |events| && Passed(sha, events, i, whole, previous, sequence)
    ensures var e := events[i];
            var key := ChainKey(e.body.source, e.body.session);
            if RowAccepted(sha, e, whole, sequence, Recall(previous, key))
            then Passed(sha, events, i + 1, whole, previous[key := e.hash], e.sequence)
            else !RowsVerify(sha, events, whole)
  {
    hide RowsVerify;
    hide Remembers;
    hide Records;
    hide LastHash;
    hide RowAccepted;
    hide Canonical;
    var e := events[i];
    var before := events[..i];
    assert events[..i + 1] == before + [e];
    assert SequenceBefore(before, i) == SequenceBefore(events, i);
    RowsVerifyWithRow(sha, before, e, whole);
    RecordsAppend(before, e);
    RemembersFor(previous, Records(before), ChainKey(e.body.source, e.body.session));
    RemembersNext(previous, Records(before), ToRecord(e));
    if !RowsVerify(sha, before + [e], whole) {
      RowsRefuted(sha, events, i + 1, whole);
    }
  }

  lemma PassedAll(sha: Sha, events: seq<RawEvent>, whole: bool, previous: map<string, string>, sequence: int)
    requires Passed(sha, events, |events|, whole, previous, sequence)
    ensures RowsVerify(sha, events, whole)
  {
    assert events[..|events|] == events;
  }

  // The loop of VerifyLedger over the listed rows.
  method VerifyRows(sha: Sha, events: seq<RawEvent>, whole: bool) returns (r: Result<()>)
    ensures r.Ok? <==> RowsVerify(sha, events, whole)
  {
    hide Passed;
    hide RowsVerify;
    hide Hash;
    hide Canonical;
    hide ChainKey;
    var previous: map<string, string> := map[];
    var previousSequence := 0;
    PassedStart(sha, events, whole);
    for i := 0 to |events|
      invariant Passed(sha, events, i, whole, previous, previousSequence)
    {
      PassedNext(sha, events, i, whole, previous, previousSequence);
      var e := events[i];
      if e.sequence <= previousSequence || (whole && e.sequence != previousSequence + 1) {
        return Err("ledger event sequence is not contiguous");
      }
      previousSequence := e.sequence;
      var key := ChainKey(e.body.source, e.body.session);
      if e.previousHash != Recall(previous, key) {
        return Err("ledger previous hash does not match");
      }
      if Hash(sha, key, Canonical(e.body, e.sequence), e.previousHash) != e.hash {
        return Err("ledger event hash does not match");
      }
      previous := previous[key := e.hash];
    }
    PassedAll(sha, events, whole, previous, previousSequence);
    r := Ok(());
  }

  // WHERE session_id = ?
  function OfSession(events: seq<RawEvent>, session: string): seq<RawEvent> {
    if events == [] then []
    else
      var last := events[|events| - 1];
      OfSession(events[..|events| - 1], session) + if last.body.session == session then [last] else []
  }

  // What VerifyLedger accepts of the events: the whole ledger for an empty
  // session, that session's events otherwise.
  predicate LedgerVerifies(sha: Sha, events: seq<RawEvent>, session: string) {
    if session == "" then RowsVerify(sha, events, true) else RowsVerify(sha, OfSession(events, session), false)
  }

  // ---- ingestion identity ------------------------------------------------------------

  const BODY_KEYS := ["Source", "SourceVersion", "SessionID", "EventType", "OccurredAt", "ProjectID",
                      "ProjectLocationID", "WorkContextID", "ResolutionMethod", "ResolutionConfidence",
                      "EvidenceJSON", "Payload"]

  function OrElse(text: string, default: string): string {
    if text == "" then default else text
  }

  function WithDefaults(b: Body): Body {
    b.(resolution := OrElse(b.resolution, "unresolved"), confidence := OrElse(b.confidence, "unknown"),
       evidence := OrElse(b.evidence, "{}"), payload := OrElse(b.payload, "{}"))
  }

  // The columns an event without an upstream identity is identified by: a time
  // that was omitted, or never given, is left blank.
  function IdentityBody(input: RawInput): Body {
    WithDefaults(input.body).(occurredAt := if input.occurred && !input.omitOccurredAt then input.body.occurredAt
        else "")
  }

  // CanonicalIngestionIdentity.
  function Identity(sha: Sha, input: RawInput): string {
    var upstream := TrimSpace(input.identity);
    if upstream != "" then
      "upstream-sha256:" + sha(Object(["Source", "SessionID", "Identity"],
                                      [Str(input.body.source), Str(input.body.session), Str(upstream)]))
    else
      "sha256:" + sha(Object(BODY_KEYS, BodyValues(IdentityBody(input))))
  }

  predicate SameIdentity(a: RawInput, b: RawInput) {
    var u, v := TrimSpace(a.identity), TrimSpace(b.identity);
    if u != "" || v != "" then
      u == v && a.body.source == b.body.source && a.body.session == b.body.session
    else
      IdentityBody(a) == IdentityBody(b)
  }

  lemma UpstreamInjective(sha: Sha, a: RawInput, b: RawInput)
    requires Digesting(sha) && TrimSpace(a.identity) != "" && TrimSpace(b.identity) != ""
    ensures Identity(sha, a) == Identity(sha, b) <==> SameIdentity(a, b)
  {
    hide Object;
    hide TrimSpace;
    var keys := ["Source", "SessionID", "Identity"];
    var v := [Str(a.body.source), Str(a.body.session), Str(TrimSpace(a.identity))];
    var w := [Str(b.body.source), Str(b.body.session), Str(TrimSpace(b.identity))];
    ObjectInjective(keys, v, w);
    if Identity(sha, a) == Identity(sha, b) {
      Prefixed("upstream-sha256:", sha(Object(keys, v)), sha(Object(keys, w)));
      assert v[0] == w[0] && v[1] == w[1] && v[2] == w[2];
    }
  }

  lemma ContentInjective(sha: Sha, a: RawInput, b: RawInput)
    requires Digesting(sha) && TrimSpace(a.identity) == "" && TrimSpace(b.identity) == ""
    ensures Identity(sha, a) == Identity(sha, b) <==> SameIdentity(a, b)
  {
    hide Object;
    hide TrimSpace;
    hide BodyValues;
    hide IdentityBody;
    var v, w := BodyValues(IdentityBody(a)), BodyValues(IdentityBody(b));
    ObjectInjective(BODY_KEYS, v, w);
    BodyValuesInjective(IdentityBody(a), IdentityBody(b));
    if Identity(sha, a) == Identity(sha, b) {
      Prefixed("sha256:", sha(Object(BODY_KEYS, v)), sha(Object(BODY_KEYS, w)));
    }
  }

  // Two inputs share an identity exactly when they name the same upstream event of
  // a source and session or, naming none, agree on every identifying column.
  lemma IdentityExact(sha: Sha, a: RawInput, b: RawInput)
    requires Digesting(sha)
    ensures Identity(sha, a) == Identity(sha, b) <==> SameIdentity(a, b)
  {
    hide Object;
    hide TrimSpace;
    hide BodyValues;
    hide IdentityBody;
    if TrimSpace(a.identity) != "" && TrimSpace(b.identity) != "" {
      UpstreamInjective(sha, a, b);
    } else if TrimSpace(a.identity) == "" && TrimSpace(b.identity) == "" {
      ContentInjective(sha, a, b);
    } else {
      assert Identity(sha, a)[0] != Identity(sha, b)[0];
    }
  }

  // ---- appending ------------------------------------------------------------------------

  predicate InChain(e: RawEvent, source: string, session: string) {
    e.body.source == source && e.body.session == session
  }

  // ORDER BY created_at DESC, id DESC.
  predicate Newer(e: RawEvent, f: RawEvent) {
    e.createdAt > f.createdAt || (e.createdAt == f.createdAt && e.id != f.id && StringLe(f.id, e.id))
  }

  // The row AppendRawEvent takes for the head of a chain.
  function HeadFor(events: seq<RawEvent>, source: string, session: string): Option<RawEvent> {
    if events == [] then None
    else
      var last, best := events[|events| - 1], HeadFor(events[..|events| - 1], source, session);
      if InChain(last, source, session) && (best.None? || Newer(last, best.value)) then Some(last) else best
  }

  function MaxSequence(events: seq<RawEvent>): int {
    if events == [] then 0
    else if |events| == 1 then events[0].sequence
    else Max(MaxSequence(events[..|events| - 1]), events[|events| - 1].sequence)
  }

  predicate HasId(events: seq<RawEvent>, id: string) {
    exists k :: 0 <= k < |events| && events[k].id == id
  }

  // The encoded boundary marker, in the order of its fields.
  function MarkerText(m: Marker): string {
    Object(["boundary_id", "challenge", "ledger_position_sha256", "ledger_event_count", "ledger_event_sequence"],
           [Str(m.boundaryId), Str(m.challenge), Str(m.position), Num(m.eventCount), Num(m.eventSequence)])
  }

  // The columns that are hashed; a marker is rewritten with the position it got.
  function HashedBody(input: RawInput, env: Env, sequence: int): Body {
    var b := WithDefaults(input.body).(occurredAt := if input.occurred then input.body.occurredAt else env.clockText);
    if input.marker.None? then b
    else b.(payload := MarkerText(input.marker.value.(eventSequence := sequence - 1)))
  }

  predicate Stale(input: RawInput, sequence: int) {
    input.marker.Some? && input.marker.value.eventSequence != 0 && input.marker.value.eventSequence != sequence - 1
  }

  predicate Acceptable(input: RawInput) {
    && TrimSpace(input.body.source) != "" && TrimSpace(input.body.eventType) != ""
    && (input.body.source == BOUNDARY_SOURCE && input.body.eventType == BOUNDARY_TYPE ==> input.marker.Some?)
  }

  // The source version is hashed as given but stored trimmed.
  function EventFor(sha: Sha, events: seq<RawEvent>, input: RawInput, env: Env): RawEvent {
    var sequence := MaxSequence(events) + 1;
    var body := HashedBody(input, env, sequence);
    var head := HeadFor(events, body.source, body.session);
    var previousHash := if head.Some? then head.value.hash else "";
    RawEvent(env.id, body.(sourceVersion := TrimSpace(body.sourceVersion)), input.links, previousHash,
             EventHash(sha, body, sequence, previousHash), env.now, sequence)
  }

  function AppendOutcome(sha: Sha, l: Ledger, input: RawInput, env: Env): AppendResult {
    if !Acceptable(input) then Failed
    else if Identity(sha, input) in l.dedup then Suppressed(l.dedup[Identity(sha, input)].eventId)
    else if Stale(input, MaxSequence(l.events) + 1) || !env.keysResolve || HasId(l.events, env.id) then Failed
    else Accepted(env.id, MaxSequence(l.events) + 1)
  }

  // AppendRawEvent: one committed transaction, or none.
  function Append(sha: Sha, l: Ledger, input: RawInput, env: Env): Ledger {
    var identity := Identity(sha, input);
    match AppendOutcome(sha, l, input, env)
    case Failed => l
    case Suppressed(_) =>
      var d := l.dedup[identity];
      l.(dedup := l.dedup[identity := d.(lastReceived := env.now, suppressions := d.suppressions + 1)])
    case Accepted(_, _) =>
      Ledger(l.events + [EventFor(sha, l.events, input, env)],
             l.dedup[identity := Dedup(env.id, input.body.source, env.now, env.now, 0)])
  }
}
