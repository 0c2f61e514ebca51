/** Choosing the newest session logs while walking a directory
    (internal/simplecli/cli.go). */
module Discover {
  import opened Basics
  import opened Sorting
  import opened Text

  datatype Candidate = Candidate(path: string, modified: int)

  // What the walk reports of a directory entry.
  datatype Entry = Entry(path: string, name: string, directory: bool, symlink: bool, regular: bool, modified: int)

  predicate Eligible(e: Entry, since: int) {
    !e.directory && !e.symlink && HasSuffix(Lower(e.name), ".jsonl") && e.regular && e.modified >= since
  }

  predicate HasSuffix(s: string, suffix: string) {
    |suffix| <= |s| && s[|s| - |suffix|..] == suffix
  }

  // Newest first, then by path.
  predicate NewerFirst(a: Candidate, b: Candidate) {
    if a.modified == b.modified then StringLe(a.path, b.path) else a.modified > b.modified
  }

  lemma NewerFirstTotal()
    ensures TotalOrder(NewerFirst)
  {
    hide StringLe;
    forall x, y ensures (StringLe(x, y) || StringLe(y, x)) && (StringLe(x, y) && StringLe(y, x) ==> x == y) {
      StringLeTotal(x, y);
    }
    forall x, y, z | StringLe(x, y) && StringLe(y, z) ensures StringLe(x, z) {
      StringLeTransitive(x, y, z);
    }
  }

  function Candidates(entries: seq<Entry>, since: int): seq<Candidate> {
    if entries == [] then []
    else
      var last := entries[|entries| - 1];
      Candidates(entries[..|entries| - 1], since)
      + if Eligible(last, since) then [Candidate(last.path, last.modified)] else []
  }

  lemma CandidatesNext(entries: seq<Entry>, e: Entry, since: int)
    ensures Candidates(entries + [e], since) ==
            if Eligible(e, since) then Candidates(entries, since) + [Candidate(e.path, e.modified)]
            else Candidates(entries, since)
  {
    hide Eligible;
    assert (entries + [e])[..|entries|] == entries;
    assert Candidates(entries, since) + [] == Candidates(entries, since);
  }

  function Take<T>(k: nat, s: seq<T>): seq<T> {
    if |s| <= k then s else s[..k]
  }

  // The first k of all candidates, fully sorted.
  function Best(entries: seq<Entry>, since: int, k: nat): seq<Candidate> {
    Take(k, Sort(NewerFirst, Candidates(entries, since)))
  }

  // Cutting before an insertion or only after it makes no difference to the first k.
  lemma {:induction false} CutInsert(x: Candidate, s: seq<Candidate>, k: nat)
    ensures Take(k, Insert(NewerFirst, x, Take(k, s))) == Take(k, Insert(NewerFirst, x, s))
  {
    hide NewerFirst;
    InsertMultiset(NewerFirst, x, s);
    InsertMultiset(NewerFirst, x, Take(k, s));
    if |s| > k > 0 && !NewerFirst(x, s[0]) {
      CutInsert(x, s[1..], k - 1);
      assert s[..k][1..] == s[1..][..k - 1];
    }
  }

  // Sorting one more element is inserting it.
  lemma SortNext(s: seq<Candidate>, x: Candidate)
    ensures Sort(NewerFirst, s + [x]) == Insert(NewerFirst, x, Sort(NewerFirst, s))
  {
    hide NewerFirst;
    NewerFirstTotal();
    assert multiset(s + [x]) == multiset([x] + s);
    SortDependsOnMultiset(NewerFirst, s + [x], [x] + s);
    assert ([x] + s)[1..] == s;
  }

  lemma SortedStays(s: seq<Candidate>, k: nat)
    ensures Sort(NewerFirst, Take(k, Sort(NewerFirst, s))) == Take(k, Sort(NewerFirst, s))
  {
    hide NewerFirst;
    NewerFirstTotal();
    SortSorted(NewerFirst, s);
    SortFixpoint(NewerFirst, Take(k, Sort(NewerFirst, s)));
  }

  // The walk callback keeps exactly the best k so far.
  lemma KeepBest(s: seq<Candidate>, x: Candidate, k: nat)
    ensures Take(k, Sort(NewerFirst, Take(k, Sort(NewerFirst, s)) + [x])) == Take(k, Sort(NewerFirst, s + [x]))
  {
    hide NewerFirst;
    SortNext(s, x);
    SortNext(Take(k, Sort(NewerFirst, s)), x);
    SortedStays(s, k);
    CutInsert(x, Sort(NewerFirst, s), k);
  }

  // discover's walk: append, sort and truncate at every eligible entry.
  method Discover(entries: seq<Entry>, since: int, limit: nat) returns (paths: seq<string>, count: nat)
    ensures count == |Candidates(entries, since)|
    ensures paths == Image((c: Candidate) => c.path, Best(entries, since, limit))
  {
    hide NewerFirst;
    hide Eligible;
    hide Sort;
    hide Candidates;
    var selected: seq<Candidate> := [];
    count := 0;
    NothingBest(since, limit);
    assert entries[..0] == [];
    for i := 0 to |entries|
      invariant selected == Best(entries[..i], since, limit) && count == |Candidates(entries[..i], since)|
    {
      var entry := entries[i];
      assert entries[..i + 1] == entries[..i] + [entry];
      CandidatesNext(entries[..i], entry, since);
      if Eligible(entry, since) {
        count := count + 1;
        KeepBest(Candidates(entries[..i], since), Candidate(entry.path, entry.modified), limit);
        selected := selected + [Candidate(entry.path, entry.modified)];
        selected := Sort(NewerFirst, selected);
        if |selected| > limit {
          selected := selected[..limit];
        }
      }
    }
    assert entries[..|entries|] == entries;
    paths := [];
    for i := 0 to |selected|
      invariant paths == Image((c: Candidate) => c.path, selected[..i])
    {
      assert selected[..i + 1][..i] == selected[..i];
      paths := paths + [selected[i].path];
    }
    assert selected[..|selected|] == selected;
  }

  lemma NothingBest(since: int, k: nat)
    ensures Best([], since, k) == [] && Candidates([], since) == []
  {
  }

  lemma {:induction false} CandidatesConcat(a: seq<Entry>, b: seq<Entry>, since: int)
    ensures Candidates(a + b, since) == Candidates(a, since) + Candidates(b, since)
  {
    hide Eligible;
    if b == [] {
      assert a + b == a;
    } else {
      assert (a + b)[..|a + b| - 1] == a + b[..|b| - 1];
      CandidatesConcat(a, b[..|b| - 1], since);
    }
  }

  lemma {:induction false} CandidatesPermute(a: seq<Entry>, b: seq<Entry>, since: int)
    requires multiset(a) == multiset(b)
    ensures multiset(Candidates(a, since)) == multiset(Candidates(b, since))
  {
    hide Eligible;
    assert |multiset(a)| == |a| && |multiset(b)| == |b|;
    if a != [] {
      var j := FindLast(a, b);
      CandidatesPermute(a[..|a| - 1], b[..j] + b[j + 1..], since);
      CandidatesConcat(b[..j], b[j + 1..], since);
      CandidatesConcat(b[..j] + [b[j]], b[j + 1..], since);
      CandidatesConcat(b[..j], [b[j]], since);
      assert [b[j]][..0] == [];
    }
  }

  // Main result: the selection does not depend on the order of the walk.
  lemma AnyWalkOrder(a: seq<Entry>, b: seq<Entry>, since: int, limit: nat)
    requires multiset(a) == multiset(b)
    ensures Best(a, since, limit) == Best(b, since, limit)
  {
    hide NewerFirst;
    NewerFirstTotal();
    CandidatesPermute(a, b, since);
    SortDependsOnMultiset(NewerFirst, Candidates(a, since), Candidates(b, since));
  }

  // And no candidate left out is better than one selected.
  lemma NoneBetter(entries: seq<Entry>, since: int, limit: nat, chosen: Candidate, other: Candidate)
    requires chosen in Best(entries, since, limit) && other in Candidates(entries, since)
             && other !in Best(entries, since, limit)
    ensures NewerFirst(chosen, other)
  {
    hide NewerFirst;
    NewerFirstTotal();
    var all := Candidates(entries, since);
    var sorted := Sort(NewerFirst, all);
    SortSorted(NewerFirst, all);
    SortMultiset(NewerFirst, all);
    assert other in multiset(sorted);
    var i :| 0 <= i < |Best(entries, since, limit)| && Best(entries, since, limit)[i] == chosen;
    var j :| 0 <= j < |sorted| && sorted[j] == other;
    var best := Best(entries, since, limit);
    assert forall m :: 0 <= m < |best| ==> sorted[m] == best[m] && best[m] in best;
    assert i < |best| <= j;
  }

  // ---- the selection, spelled out --------------------------------------------------

  // What is considered: the regular files with the extension, in any case of letters,
  // that are not links and were modified at or after the bound.
  lemma {:induction false} CandidatesExactly(entries: seq<Entry>, since: int, c: Candidate)
    ensures c in Candidates(entries, since) <==>
            exists i :: 0 <= i < |entries| && entries[i].path == c.path && entries[i].modified == c.modified
                        && entries[i].regular && !entries[i].directory && !entries[i].symlink
                        && c.modified >= since
                        && |Lower(entries[i].name)| >= 6
                        && Lower(entries[i].name)[|Lower(entries[i].name)| - 6..] == ".jsonl"
  {
    if entries != [] {
      var init, last := entries[..|entries| - 1], entries[|entries| - 1];
      CandidatesExactly(init, since, c);
      assert forall i :: 0 <= i < |entries| ==> entries[i] == if i < |init| then init[i] else last;
    }
  }

  // Main result on what is chosen: of the candidates exactly the limit or all of them,
  // each as often as it was found, newest first and by path where times agree.
  lemma SelectedExactly(entries: seq<Entry>, since: int, limit: nat)
    ensures var best, all := Best(entries, since, limit), Candidates(entries, since);
            && |best| == (if |all| <= limit then |all| else limit)
            && multiset(best) <= multiset(all)
            && (forall i, j :: 0 <= i < j < |best| ==>
                  || best[i].modified > best[j].modified
                  || (best[i].modified == best[j].modified && PathFirst(best[i].path, best[j].path)))
            && forall c, d :: c in best && d in all && d !in best ==>
                 || c.modified > d.modified
                 || (c.modified == d.modified && c.path != d.path && PathFirst(c.path, d.path))
  {
    hide StringLe;
    hide Candidates;
    hide PathFirst;
    hide NewerFirst;
    NewerFirstTotal();
    var all := Candidates(entries, since);
    var sorted := Sort(NewerFirst, all);
    SortSorted(NewerFirst, all);
    SortMultiset(NewerFirst, all);
    assert |sorted| == |multiset(sorted)| == |all|;
    var best := Best(entries, since, limit);
    assert sorted == best + sorted[|best|..];
    forall i, j | 0 <= i < j < |best|
      ensures || best[i].modified > best[j].modified
              || (best[i].modified == best[j].modified && PathFirst(best[i].path, best[j].path))
    {
      assert NewerFirst(sorted[i], sorted[j]);
      ComesFirst(best[i], best[j]);
    }
    forall c, d | c in best && d in all && d !in best
      ensures || c.modified > d.modified
              || (c.modified == d.modified && c.path != d.path && PathFirst(c.path, d.path))
    {
      NoneBetter(entries, since, limit, c, d);
      ComesFirst(c, d);
      assert c.path == d.path && c.modified == d.modified ==> c == d;
    }
  }

  // One path is a beginning of the other, or has the smaller character where the two
  // first differ.
  predicate PathFirst(a: string, b: string) {
    a <= b || exists i :: 0 <= i < |a| && i < |b| && a[i] < b[i] && a[..i] == b[..i]
  }

  lemma ComesFirst(a: Candidate, b: Candidate)
    ensures NewerFirst(a, b) <==>
            a.modified > b.modified || (a.modified == b.modified && PathFirst(a.path, b.path))
  {
    StringLeExactly(a.path, b.path);
  }
}
