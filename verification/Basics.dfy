/** Values shared by every part of the usage-ledger model. */
module Basics {

  datatype Option<+T> = None | Some(value: T)

  datatype Result<+T> = Ok(value: T) | Err(reason: string)

  // The largest signed 64-bit integer, the source's math.MaxInt64.
  const MAX_INT64: int := 0x7FFF_FFFF_FFFF_FFFF

  // An allocation share is expressed in basis points; a whole is 10000 of them.
  const WHOLE: int := 10000

  function Max(a: int, b: int): int {
    if a < b then b else a
  }

  // Sum of a sequence of integers.
  function Sum(s: seq<int>): int {
    if s == [] then 0 else s[0] + Sum(s[1..])
  }

  lemma {:induction false} SumAppend(s: seq<int>, t: seq<int>)
    ensures Sum(s + t) == Sum(s) + Sum(t)
  {
    if s == [] {
      assert s + t == t;
    } else {
      assert (s + t)[1..] == s[1..] + t;
      SumAppend(s[1..], t);
    }
  }

  // A sum of non-negative terms bounds each of its terms and is non-negative.
  lemma {:induction false} SumBoundsTerms(s: seq<int>)
    requires forall k :: 0 <= k < |s| ==> s[k] >= 0
    ensures Sum(s) >= 0
    ensures forall k :: 0 <= k < |s| ==> s[k] <= Sum(s)
  {
    if s != [] {
      SumBoundsTerms(s[1..]);
      forall k | 0 <= k < |s| ensures s[k] <= Sum(s) {
        if k > 0 {
          assert s[k] == s[1..][k - 1];
        }
      }
    }
  }

  // Sum of a function over a finite set, in whatever order it is taken.
  ghost function SetSum<T(!new)>(keys: set<T>, f: T -> int): int {
    if keys == {} then 0
    else
      var k :| k in keys;
      f(k) + SetSum(keys - {k}, f)
  }

  lemma {:induction false} SetSumTake<T(!new)>(keys: set<T>, f: T -> int, x: T)
    requires x in keys
    ensures SetSum(keys, f) == f(x) + SetSum(keys - {x}, f)
  {
    var k :| k in keys && SetSum(keys, f) == f(k) + SetSum(keys - {k}, f);
    if k != x {
      SetSumTake(keys - {k}, f, x);
      SetSumTake(keys - {x}, f, k);
      assert keys - {k} - {x} == keys - {x} - {k};
    }
  }

  lemma {:induction false} SetSumAgrees<T(!new)>(keys: set<T>, f: T -> int, g: T -> int)
    requires forall k :: k in keys ==> f(k) == g(k)
    ensures SetSum(keys, f) == SetSum(keys, g)
  {
    if keys != {} {
      var k :| k in keys;
      SetSumTake(keys, f, k);
      SetSumTake(keys, g, k);
      SetSumAgrees(keys - {k}, f, g);
    }
  }

  // Raising one summand raises the sum by as much.
  lemma SetSumBump<T(!new)>(keys: set<T>, f: T -> int, g: T -> int, x: T, d: int)
    requires x in keys && g(x) == f(x) + d && forall k :: k in keys && k != x ==> g(k) == f(k)
    ensures SetSum(keys, g) == SetSum(keys, f) + d
  {
    SetSumTake(keys, f, x);
    SetSumTake(keys, g, x);
    SetSumAgrees(keys - {x}, f, g);
  }

  lemma {:induction false} SetSumSplit<T(!new)>(keys: set<T>, done: set<T>, f: T -> int)
    requires done <= keys
    ensures SetSum(keys, f) == SetSum(done, f) + SetSum(keys - done, f)
  {
    if done == {} {
      assert keys - done == keys;
    } else {
      var k :| k in done;
      SetSumTake(keys, f, k);
      SetSumTake(done, f, k);
      SetSumSplit(keys - {k}, done - {k}, f);
      assert keys - {k} - (done - {k}) == keys - done;
    }
  }

  lemma {:induction false} SetSumNonNegative<T(!new)>(keys: set<T>, f: T -> int)
    requires forall k :: k in keys ==> f(k) >= 0
    ensures SetSum(keys, f) >= 0
  {
    if keys != {} {
      var k :| k in keys;
      SetSumTake(keys, f, k);
      SetSumNonNegative(keys - {k}, f);
    }
  }
}
