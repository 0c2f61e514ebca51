/** Hash chains of interleaved sessions (internal/audit/chain.go). */
module AuditChain {
  import opened Basics
  import opened Text

  // SHA-256 in hexadecimal is taken as some function of its input.
  type Sha = string -> string

  // What is assumed of it: no two inputs collide, and a digest is one non-empty
  // line.
  ghost predicate Digesting(sha: Sha) {
    && (forall x, y :: sha(x) == sha(y) ==> x == y)
    && (forall x :: sha(x) != "" && '\n' !in sha(x))
  }

  datatype Record = Record(session: string, payload: string, previousHash: string, hash: string)

  function Hash(sha: Sha, session: string, payload: string, previousHash: string): string {
    sha(session + "\n" + payload + "\n" + previousHash)
  }

  function NewRecord(sha: Sha, session: string, payload: string, previousHash: string): Record {
    Record(session, payload, previousHash, Hash(sha, session, payload, previousHash))
  }

  predicate OneLine(s: string) {
    '\n' !in s
  }

  // The framing is unambiguous for one-line payloads and digests, even when the
  // session itself has line breaks.
  lemma HashInjective(sha: Sha, s: string, p: string, h: string, t: string, q: string, g: string)
    requires Digesting(sha) && OneLine(p) && OneLine(q) && OneLine(h) && OneLine(g)
    ensures Hash(sha, s, p, h) == Hash(sha, t, q, g) <==> s == t && p == q && h == g
  {
    if Hash(sha, s, p, h) == Hash(sha, t, q, g) {
      assert s + "\n" + p + "\n" + h == (s + ['\n'] + p) + ['\n'] + h;
      assert t + "\n" + q + "\n" + g == (t + ['\n'] + q) + ['\n'] + g;
      SplitAtLast('\n', s + ['\n'] + p, h, t + ['\n'] + q, g);
      SplitAtLast('\n', s, p, t, q);
    }
  }

  // Within one session it is unambiguous for any payloads at all.
  lemma HashInjectiveInSession(sha: Sha, s: string, p: string, h: string, q: string, g: string)
    requires Digesting(sha) && OneLine(h) && OneLine(g)
    ensures Hash(sha, s, p, h) == Hash(sha, s, q, g) <==> p == q && h == g
  {
    if Hash(sha, s, p, h) == Hash(sha, s, q, g) {
      assert s + "\n" + p + "\n" + h == (s + ['\n'] + p) + ['\n'] + h;
      assert s + "\n" + q + "\n" + g == (s + ['\n'] + q) + ['\n'] + g;
      SplitAtLast('\n', s + ['\n'] + p, h, s + ['\n'] + q, g);
      assert p == (s + ['\n'] + p)[|s| + 1..] && q == (s + ['\n'] + q)[|s| + 1..];
    }
  }

  // The hash the next record of a session must point back to.
  function LastHash(records: seq<Record>, session: string): string {
    if records == [] then ""
    else
      var last := records[|records| - 1];
      if last.session == session then last.hash else LastHash(records[..|records| - 1], session)
  }

  predicate Follows(sha: Sha, before: seq<Record>, r: Record) {
    r.previousHash == LastHash(before, r.session) && r.hash == Hash(sha, r.session, r.payload, r.previousHash)
  }

  // Every record follows the last one of its own session.
  predicate Verifies(sha: Sha, records: seq<Record>) {
    forall i :: 0 <= i < |records| ==> Follows(sha, records[..i], records[i])
  }

  lemma VerifiesNext(sha: Sha, records: seq<Record>, r: Record)
    ensures Verifies(sha, records + [r]) <==> Verifies(sha, records) && Follows(sha, records, r)
  {
    var all := records + [r];
    assert all[..|records|] == records;
    if Verifies(sha, all) {
      forall i | 0 <= i < |records| ensures Follows(sha, records[..i], records[i]) {
        assert all[..i] == records[..i] && Follows(sha, all[..i], all[i]);
      }
      assert Follows(sha, all[..|records|], all[|records|]);
    }
    if Verifies(sha, records) && Follows(sha, records, r) {
      forall i | 0 <= i < |all| ensures Follows(sha, all[..i], all[i]) {
        if i < |records| {
          assert all[..i] == records[..i];
        }
      }
    }
  }

  lemma LastHashNext(records: seq<Record>, r: Record, session: string)
    ensures LastHash(records + [r], session) == if r.session == session then r.hash else LastHash(records, session)
  {
    assert (records + [r])[..|records|] == records;
  }

  function Recall(previous: map<string, string>, session: string): string {
    if session in previous then previous[session] else ""
  }

  ghost predicate Remembers(previous: map<string, string>, records: seq<Record>) {
    forall s :: Recall(previous, s) == LastHash(records, s)
  }

  lemma RemembersNext(previous: map<string, string>, records: seq<Record>, r: Record)
    requires Remembers(previous, records)
    ensures Remembers(previous[r.session := r.hash], records + [r])
  {
    var next, after := previous[r.session := r.hash], records + [r];
    forall s ensures Recall(next, s) == LastHash(after, s) {
      LastHashNext(records, r, s);
      assert Recall(previous, s) == LastHash(records, s);
    }
  }

  lemma RemembersFor(previous: map<string, string>, records: seq<Record>, session: string)
    requires Remembers(previous, records)
    ensures Recall(previous, session) == LastHash(records, session)
  {
  }

  lemma RemembersNothing()
    ensures Remembers(map[], [])
  {
  }

  lemma VerifiesPrefix(sha: Sha, records: seq<Record>, n: nat)
    requires n <= |records| && Verifies(sha, records)
    ensures Verifies(sha, records[..n])
  {
    forall i | 0 <= i < n ensures Follows(sha, records[..n][..i], records[..n][i]) {
      assert records[..n][..i] == records[..i];
    }
  }

  lemma Refuted(sha: Sha, records: seq<Record>, n: nat)
    requires n <= |records| && !Verifies(sha, records[..n])
    ensures !Verifies(sha, records)
  {
    if Verifies(sha, records) {
      VerifiesPrefix(sha, records, n);
    }
  }

  // Verify: one pass over all records, remembering one hash per session.
  method Verify(sha: Sha, records: seq<Record>) returns (r: Result<()>)
    ensures r.Ok? <==> Verifies(sha, records)
  {
    hide LastHash;
    var previous: map<string, string> := map[];
    RemembersNothing();
    assert records[..0] == [];
    for i := 0 to |records|
      invariant Remembers(previous, records[..i]) && Verifies(sha, records[..i])
    {
      var record := records[i];
      assert records[..i + 1] == records[..i] + [record];
      VerifiesNext(sha, records[..i], record);
      if record.previousHash != Recall(previous, record.session) {
        Refuted(sha, records, i + 1);
        return Err("record has an invalid previous hash");
      }
      if record.hash != Hash(sha, record.session, record.payload, record.previousHash) {
        Refuted(sha, records, i + 1);
        return Err("record hash does not match payload");
      }
      RemembersNext(previous, records[..i], record);
      previous := previous[record.session := record.hash];
    }
    assert records[..|records|] == records;
    r := Ok(());
  }

  // ---- interleaving -----------------------------------------------------------------

  function Chain(records: seq<Record>, session: string): seq<Record> {
    if records == [] then []
    else
      var last := records[|records| - 1];
      Chain(records[..|records| - 1], session) + if last.session == session then [last] else []
  }

  lemma ChainNext(records: seq<Record>, r: Record, session: string)
    ensures Chain(records + [r], session) ==
            if r.session == session then Chain(records, session) + [r] else Chain(records, session)
  {
    assert (records + [r])[..|records|] == records;
    assert Chain(records, session) + [] == Chain(records, session);
  }

  lemma {:induction false} ChainHasLastHash(records: seq<Record>, session: string)
    ensures LastHash(Chain(records, session), session) == LastHash(records, session)
    ensures forall k :: 0 <= k < |Chain(records, session)| ==> Chain(records, session)[k].session == session
  {
    if records != [] {
      var init, last := records[..|records| - 1], records[|records| - 1];
      assert records == init + [last];
      ChainHasLastHash(init, session);
      ChainNext(init, last, session);
      LastHashNext(init, last, session);
      LastHashNext(Chain(init, session), last, session);
      hide Chain;
      hide LastHash;
    }
  }

  // A record extends the whole exactly when it extends its own session's chain.
  lemma FollowsItsChain(sha: Sha, records: seq<Record>, r: Record)
    ensures Follows(sha, records, r) <==> Follows(sha, Chain(records, r.session), r)
  {
    ChainHasLastHash(records, r.session);
  }

  ghost predicate ChainsVerify(sha: Sha, records: seq<Record>) {
    forall s :: Verifies(sha, Chain(records, s))
  }

  lemma ChainsVerifyNext(sha: Sha, records: seq<Record>, r: Record)
    ensures ChainsVerify(sha, records + [r]) <==> ChainsVerify(sha, records) && Follows(sha, records, r)
  {
    hide Verifies;
    hide Follows;
    hide Chain;
    var after := records + [r];
    FollowsItsChain(sha, records, r);
    VerifiesNext(sha, Chain(records, r.session), r);
    forall s ensures Chain(after, s) == if s == r.session then Chain(records, s) + [r] else Chain(records, s) {
      ChainNext(records, r, s);
    }
    if ChainsVerify(sha, after) {
      assert Verifies(sha, Chain(after, r.session));
      forall s ensures Verifies(sha, Chain(records, s)) {
        assert Verifies(sha, Chain(after, s));
      }
    }
  }

  // Main result: however the sessions are interleaved, one pass accepts exactly
  // when each session's own records form a chain.
  lemma {:induction false} VerifiesPerSession(sha: Sha, records: seq<Record>)
    ensures Verifies(sha, records) <==> ChainsVerify(sha, records)
  {
    if records == [] {
      assert forall s :: Chain(records, s) == [];
    } else {
      var init, last := records[..|records| - 1], records[|records| - 1];
      assert records == init + [last];
      VerifiesPerSession(sha, init);
      VerifiesNext(sha, init, last);
      ChainsVerifyNext(sha, init, last);
      hide Verifies;
      hide Follows;
      hide ChainsVerify;
    }
  }

  // A record built on its session's last hash extends a verified sequence.
  lemma NewRecordExtends(sha: Sha, records: seq<Record>, session: string, payload: string)
    requires Verifies(sha, records)
    ensures Verifies(sha, records + [NewRecord(sha, session, payload, LastHash(records, session))])
  {
    VerifiesNext(sha, records, NewRecord(sha, session, payload, LastHash(records, session)));
  }

  // ---- a chain is determined by its last hash ------------------------------------------

  lemma {:induction false} LastHashIsDigest(sha: Sha, records: seq<Record>, session: string)
    requires Digesting(sha) && Verifies(sha, records)
    ensures OneLine(LastHash(records, session))
    ensures LastHash(records, session) == "" <==> forall k :: 0 <= k < |records| ==> records[k].session != session
  {
    if records != [] {
      var init, last := records[..|records| - 1], records[|records| - 1];
      assert records == init + [last];
      VerifiesNext(sha, init, last);
      LastHashIsDigest(sha, init, session);
      LastHashNext(init, last, session);
      hide LastHash;
      hide Verifies;
      assert forall k :: 0 <= k < |init| ==> records[k] == init[k];
    }
  }

  predicate OneSession(records: seq<Record>, session: string) {
    forall k :: 0 <= k < |records| ==> records[k].session == session
  }

  // Two records of one session with the same hash close the same prefix.
  lemma SameHashSameRecord(sha: Sha, a: seq<Record>, r: Record, b: seq<Record>, q: Record)
    requires Digesting(sha) && Verifies(sha, a) && Verifies(sha, b) && Follows(sha, a, r) && Follows(sha, b, q)
    requires r.session == q.session && r.hash == q.hash
    ensures r == q && LastHash(a, r.session) == LastHash(b, r.session)
  {
    LastHashIsDigest(sha, a, r.session);
    LastHashIsDigest(sha, b, r.session);
    HashInjectiveInSession(sha, r.session, r.payload, r.previousHash, q.payload, q.previousHash);
  }

  // The last record of a session's verified chain.
  lemma ChainEnd(sha: Sha, a: seq<Record>, session: string)
    requires a != [] && Verifies(sha, a) && OneSession(a, session)
    ensures var init, last := a[..|a| - 1], a[|a| - 1];
            && Verifies(sha, init) && Follows(sha, init, last) && OneSession(init, session)
            && last.session == session && LastHash(a, session) == last.hash && a == init + [last]
  {
    hide Verifies;
    hide Follows;
    hide LastHash;
    var init, last := a[..|a| - 1], a[|a| - 1];
    assert a == init + [last];
    VerifiesNext(sha, init, last);
    LastHashNext(init, last, session);
  }

  lemma EmptyChain(sha: Sha, a: seq<Record>, session: string)
    requires Digesting(sha) && Verifies(sha, a) && OneSession(a, session)
    ensures LastHash(a, session) == "" <==> a == []
  {
    LastHashIsDigest(sha, a, session);
    if a != [] {
      assert a[0].session == session;
    }
  }

  // Two verified chains of one session with the same last hash are the same
  // chain, record for record.
  lemma {:induction false} LastHashDeterminesChain(sha: Sha, a: seq<Record>, b: seq<Record>, session: string)
    requires Digesting(sha) && Verifies(sha, a) && Verifies(sha, b)
    requires OneSession(a, session) && OneSession(b, session)
    ensures LastHash(a, session) == LastHash(b, session) <==> a == b
  {
    hide Verifies;
    hide Follows;
    hide LastHash;
    EmptyChain(sha, a, session);
    EmptyChain(sha, b, session);
    if LastHash(a, session) == LastHash(b, session) && a != [] {
      ChainEnd(sha, a, session);
      ChainEnd(sha, b, session);
      SameHashSameRecord(sha, a[..|a| - 1], a[|a| - 1], b[..|b| - 1], b[|b| - 1]);
      LastHashDeterminesChain(sha, a[..|a| - 1], b[..|b| - 1], session);
    }
  }
}
