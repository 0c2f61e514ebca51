/** Sorting as SQL "ORDER BY" and Go's sort package specify it: the ascending
    rearrangement of a sequence under a total order, which is unique. */
module Sorting {

  ghost predicate TotalOrder<T(!new)>(le: (T, T) -> bool) {
    && (forall x, y :: le(x, y) || le(y, x))
    && (forall x, y :: le(x, y) && le(y, x) ==> x == y)
    && (forall x, y, z :: le(x, y) && le(y, z) ==> le(x, z))
  }

  predicate SortedBy<T>(le: (T, T) -> bool, s: seq<T>) {
    forall i, j :: 0 <= i < j < |s| ==> le(s[i], s[j])
  }

  function Insert<T>(le: (T, T) -> bool, x: T, s: seq<T>): seq<T> {
    if s == [] then [x]
    else if le(x, s[0]) then [x] + s
    else [s[0]] + Insert(le, x, s[1..])
  }

  function Sort<T>(le: (T, T) -> bool, s: seq<T>): seq<T> {
    if s == [] then [] else Insert(le, s[0], Sort(le, s[1..]))
  }

  lemma {:induction false} InsertMultiset<T>(le: (T, T) -> bool, x: T, s: seq<T>)
    ensures multiset(Insert(le, x, s)) == multiset(s) + multiset{x}
    ensures |Insert(le, x, s)| == |s| + 1
  {
    if s != [] && !le(x, s[0]) {
      InsertMultiset(le, x, s[1..]);
      assert s == [s[0]] + s[1..];
    }
  }

  lemma {:induction false} InsertSorted<T(!new)>(le: (T, T) -> bool, x: T, s: seq<T>)
    requires TotalOrder(le) && SortedBy(le, s)
    ensures SortedBy(le, Insert(le, x, s))
  {
    if s != [] && !le(x, s[0]) {
      var rest := Insert(le, x, s[1..]);
      InsertSorted(le, x, s[1..]);
      InsertMultiset(le, x, s[1..]);
      forall j | 0 <= j < |rest| ensures le(s[0], rest[j]) {
        assert rest[j] in multiset(rest);
        assert rest[j] == x || rest[j] in s[1..];
      }
    }
  }

  lemma {:induction false} SortMultiset<T>(le: (T, T) -> bool, s: seq<T>)
    ensures multiset(Sort(le, s)) == multiset(s)
    ensures |Sort(le, s)| == |s|
  {
    if s != [] {
      SortMultiset(le, s[1..]);
      InsertMultiset(le, s[0], Sort(le, s[1..]));
      assert s == [s[0]] + s[1..];
    }
  }

  lemma {:induction false} SortSorted<T(!new)>(le: (T, T) -> bool, s: seq<T>)
    requires TotalOrder(le)
    ensures SortedBy(le, Sort(le, s))
  {
    if s != [] {
      SortSorted(le, s[1..]);
      InsertSorted(le, s[0], Sort(le, s[1..]));
    }
  }

  lemma SameFirst<T(!new)>(le: (T, T) -> bool, a: seq<T>, b: seq<T>)
    requires TotalOrder(le) && SortedBy(le, a) && SortedBy(le, b)
    requires multiset(a) == multiset(b) && a != [] && b != []
    ensures a[0] == b[0]
  {
    assert a[0] in multiset(b) && b[0] in multiset(a);
    var i :| 0 <= i < |b| && b[i] == a[0];
    var j :| 0 <= j < |a| && a[j] == b[0];
    assert i == 0 || le(b[0], b[i]);
    assert j == 0 || le(a[0], a[j]);
  }

  lemma WithoutFirst<T>(le: (T, T) -> bool, s: seq<T>)
    requires s != []
    ensures multiset(s[1..]) == multiset(s) - multiset{s[0]}
    ensures SortedBy(le, s) ==> SortedBy(le, s[1..])
  {
    assert s == [s[0]] + s[1..];
  }

  // Under a total order there is only one sorted arrangement of a multiset.
  lemma {:induction false} SortedUnique<T(!new)>(le: (T, T) -> bool, a: seq<T>, b: seq<T>)
    requires TotalOrder(le) && SortedBy(le, a) && SortedBy(le, b)
    requires multiset(a) == multiset(b)
    ensures a == b
  {
    hide TotalOrder;
    hide SortedBy;
    assert |multiset(a)| == |a| && |multiset(b)| == |b|;
    if a != [] {
      SameFirst(le, a, b);
      WithoutFirst(le, a);
      WithoutFirst(le, b);
      SortedUnique(le, a[1..], b[1..]);
      assert a == [a[0]] + a[1..] && b == [b[0]] + b[1..];
    }
  }

  // Sorting forgets the order it was given: equal multisets sort alike, and
  // sequences that sort alike hold equal multisets.
  lemma SortDependsOnMultiset<T(!new)>(le: (T, T) -> bool, a: seq<T>, b: seq<T>)
    requires TotalOrder(le)
    ensures Sort(le, a) == Sort(le, b) <==> multiset(a) == multiset(b)
  {
    SortMultiset(le, a);
    SortMultiset(le, b);
    SortSorted(le, a);
    SortSorted(le, b);
    if multiset(a) == multiset(b) {
      SortedUnique(le, Sort(le, a), Sort(le, b));
    }
  }

  // A sequence is its own sorting exactly when it is already sorted.
  lemma SortFixpoint<T(!new)>(le: (T, T) -> bool, s: seq<T>)
    requires TotalOrder(le)
    ensures Sort(le, s) == s <==> SortedBy(le, s)
  {
    SortMultiset(le, s);
    SortSorted(le, s);
    if SortedBy(le, s) {
      SortedUnique(le, Sort(le, s), s);
    }
  }

  // ---- images --------------------------------------------------------------

  function Image<A, B>(f: A -> B, s: seq<A>): (r: seq<B>)
    ensures |r| == |s|
  {
    if s == [] then [] else Image(f, s[..|s| - 1]) + [f(s[|s| - 1])]
  }

  lemma {:induction false} ImageAt<A, B>(f: A -> B, s: seq<A>, k: nat)
    requires k < |s|
    ensures Image(f, s)[k] == f(s[k])
  {
    if k < |s| - 1 {
      ImageAt(f, s[..|s| - 1], k);
    }
  }

  ghost predicate Injective<A(!new), B>(f: A -> B) {
    forall x, y :: f(x) == f(y) ==> x == y
  }

  lemma {:induction false} ImageCounts<A(!new), B>(f: A -> B, s: seq<A>, x: A)
    requires Injective(f)
    ensures multiset(Image(f, s))[f(x)] == multiset(s)[x]
  {
    if s != [] {
      var init, last := s[..|s| - 1], s[|s| - 1];
      assert s == init + [last];
      ImageCounts(f, init, x);
    }
  }

  lemma {:induction false} ImageMember<A, B>(f: A -> B, s: seq<A>, y: B)
    requires y in Image(f, s)
    ensures exists x :: x in s && y == f(x)
  {
    var init, last := s[..|s| - 1], s[|s| - 1];
    if y in Image(f, init) {
      ImageMember(f, init, y);
    } else {
      assert last in s && y == f(last);
    }
  }

  lemma {:induction false} ImageConcat<A, B>(f: A -> B, s: seq<A>, t: seq<A>)
    ensures Image(f, s + t) == Image(f, s) + Image(f, t)
  {
    if t == [] {
      assert s + t == s;
    } else {
      var init := t[..|t| - 1];
      assert (s + t)[..|s + t| - 1] == s + init;
      ImageConcat(f, s, init);
    }
  }

  lemma TakeOut<A>(t: seq<A>, j: nat)
    requires j < |t|
    ensures t == t[..j] + [t[j]] + t[j + 1..]
    ensures multiset(t[..j] + t[j + 1..]) == multiset(t) - multiset{t[j]}
  {
    assert t == t[..j] + [t[j]] + t[j + 1..];
    assert multiset(t) == multiset(t[..j]) + multiset{t[j]} + multiset(t[j + 1..]);
    assert multiset(t[..j] + t[j + 1..]) == multiset(t[..j]) + multiset(t[j + 1..]);
  }

  // Where the last element of a sequence stands in a rearrangement of it.
  lemma FindLast<A>(s: seq<A>, t: seq<A>) returns (j: nat)
    requires s != [] && multiset(s) == multiset(t)
    ensures j < |t| && t[j] == s[|s| - 1]
    ensures t == t[..j] + [t[j]] + t[j + 1..]
    ensures multiset(t[..j] + t[j + 1..]) == multiset(s[..|s| - 1])
  {
    var x := s[|s| - 1];
    assert s == s[..|s| - 1] + [x];
    assert x in multiset(t);
    j :| 0 <= j < |t| && t[j] == x;
    TakeOut(t, j);
    TakeOut(s, |s| - 1);
    assert s[..|s| - 1] + s[|s|..] == s[..|s| - 1];
  }

  // A rearrangement has a rearranged image.
  lemma {:induction false} ImagePermutes<A, B>(f: A -> B, s: seq<A>, t: seq<A>)
    requires multiset(s) == multiset(t)
    ensures multiset(Image(f, s)) == multiset(Image(f, t))
  {
    assert |multiset(s)| == |s| && |multiset(t)| == |t|;
    if s != [] {
      var init := s[..|s| - 1];
      var j := FindLast(s, t);
      var left, right := t[..j], t[j + 1..];
      ImagePermutes(f, init, left + right);
      ImageConcat(f, left, right);
      ImageConcat(f, left + [t[j]], right);
      ImageConcat(f, left, [t[j]]);
    }
  }

  // An injective image holds the same multiset exactly when its argument does.
  lemma ImageKeepsMultisets<A(!new), B(!new)>(f: A -> B, s: seq<A>, t: seq<A>)
    requires Injective(f)
    ensures multiset(Image(f, s)) == multiset(Image(f, t)) <==> multiset(s) == multiset(t)
  {
    if multiset(s) == multiset(t) {
      ImagePermutes(f, s, t);
    }
    if multiset(Image(f, s)) == multiset(Image(f, t)) {
      forall x ensures multiset(s)[x] == multiset(t)[x] {
        ImageCounts(f, s, x);
        ImageCounts(f, t, x);
      }
    }
  }
}
