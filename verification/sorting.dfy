/**
 * The stable sort `slice::sort_by` performs, for a comparator given as "a is not after b"
 * (`cmp(a, b) != Greater`). The model is an insertion sort that places each element after
 * every element not greater than it, which is stable by construction.
 */
module Sorting {

  /** `le` is a total preorder: total and transitive (ties are allowed). */
  ghost predicate TotalPreorder<T(!new)>(le: (T, T) -> bool)
  {
    && (forall a, b :: le(a, b) || le(b, a))
    && (forall a, b, c :: le(a, b) && le(b, c) ==> le(a, c))
  }

  /** Every element is not after any later one. */
  ghost predicate Sorted<T>(le: (T, T) -> bool, s: seq<T>)
  {
    forall i, j :: 0 <= i < j < |s| ==> le(s[i], s[j])
  }

  /** `a` and `b` tie under `le`. */
  predicate Tie<T>(le: (T, T) -> bool, a: T, b: T)
  {
    le(a, b) && le(b, a)
  }

  /** The elements of `s` that tie with `k`, in order. */
  function Ties<T>(le: (T, T) -> bool, s: seq<T>, k: T): (r: seq<T>)
    ensures |r| <= |s|
  {
    if |s| == 0 then []
    else Ties(le, s[..|s| - 1], k) + (if Tie(le, s[|s| - 1], k) then [s[|s| - 1]] else [])
  }

  /** Inserts `x` after the longest tail-free prefix of elements not greater than it. */
  function InsertBack<T>(le: (T, T) -> bool, s: seq<T>, x: T): (r: seq<T>)
    ensures multiset(r) == multiset(s) + multiset{x}
    ensures |r| == |s| + 1
  {
    if |s| == 0 || le(s[|s| - 1], x) then s + [x]
    else
      assert s == s[..|s| - 1] + [s[|s| - 1]];
      InsertBack(le, s[..|s| - 1], x) + [s[|s| - 1]]
  }

  /** The stable sort of `s` by `le`. */
  function Sort<T>(le: (T, T) -> bool, s: seq<T>): (r: seq<T>)
    ensures multiset(r) == multiset(s)
    ensures |r| == |s|
  {
    if |s| == 0 then []
    else
      assert s == s[..|s| - 1] + [s[|s| - 1]];
      InsertBack(le, Sort(le, s[..|s| - 1]), s[|s| - 1])
  }

  lemma {:induction false} InsertBackSorted<T(!new)>(le: (T, T) -> bool, s: seq<T>, x: T)
    requires TotalPreorder(le)
    requires Sorted(le, s)
    ensures Sorted(le, InsertBack(le, s, x))
    ensures forall y :: y in InsertBack(le, s, x) ==> y in s || y == x
    decreases |s|
  {
    var r := InsertBack(le, s, x);
    if |s| == 0 || le(s[|s| - 1], x) {
      assert r == s + [x];
      forall i, j | 0 <= i < j < |r|
        ensures le(r[i], r[j])
      {
        if j == |s| {
          assert le(s[i], s[|s| - 1]) || i == |s| - 1;
        }
      }
    } else {
      var init := s[..|s| - 1];
      var last := s[|s| - 1];
      assert Sorted(le, init);
      InsertBackSorted(le, init, x);
      var ins := InsertBack(le, init, x);
      assert r == ins + [last];
      assert le(x, last);
      forall y | y in ins
        ensures le(y, last)
      {
        if y != x {
          var k :| 0 <= k < |init| && init[k] == y;
          assert le(s[k], s[|s| - 1]);
        }
      }
      forall i, j | 0 <= i < j < |r|
        ensures le(r[i], r[j])
      {
        if j == |r| - 1 {
          assert r[i] in ins;
        } else {
          assert r[i] == ins[i] && r[j] == ins[j];
        }
      }
      forall y | y in r
        ensures y in s || y == x
      {
        if y != last {
          assert y in ins;
        }
      }
    }
  }

  /** The sort orders its input by `le`. */
  lemma {:induction false} SortSorted<T(!new)>(le: (T, T) -> bool, s: seq<T>)
    requires TotalPreorder(le)
    ensures Sorted(le, Sort(le, s))
    decreases |s|
  {
    if |s| > 0 {
      SortSorted(le, s[..|s| - 1]);
      InsertBackSorted(le, Sort(le, s[..|s| - 1]), s[|s| - 1]);
    }
  }

  /** `SortSorted` for any `le`, as an implication. */
  lemma SortSortedIfPreorder<T(!new)>(le: (T, T) -> bool, s: seq<T>)
    ensures TotalPreorder(le) ==> Sorted(le, Sort(le, s))
  {
    if TotalPreorder(le) {
      SortSorted(le, s);
    }
  }

  lemma {:induction false} TiesAppend<T>(le: (T, T) -> bool, a: seq<T>, b: seq<T>, k: T)
    ensures Ties(le, a + b, k) == Ties(le, a, k) + Ties(le, b, k)
    decreases |b|
  {
    if |b| == 0 {
      assert a + b == a;
    } else {
      assert (a + b)[..|a + b| - 1] == a + b[..|b| - 1];
      TiesAppend(le, a, b[..|b| - 1], k);
    }
  }

  lemma TiesSingle<T>(le: (T, T) -> bool, y: T, k: T)
    ensures Ties(le, [y], k) == if Tie(le, y, k) then [y] else []
  {
    assert [y][..0] == [];
  }

  /** An element strictly after `x` never ties with the same key as `x`. */
  lemma NoDoubleTie<T(!new)>(le: (T, T) -> bool, x: T, y: T, k: T)
    requires TotalPreorder(le)
    requires !le(y, x)
    ensures !(Tie(le, x, k) && Tie(le, y, k))
  {
  }

  /** Inserting `x` adds it at the end of its own tie class and leaves the others alone. */
  lemma InsertBackTies<T(!new)>(le: (T, T) -> bool, s: seq<T>, x: T, k: T)
    requires TotalPreorder(le)
    ensures Ties(le, InsertBack(le, s, x), k) == Ties(le, s, k) + (if Tie(le, x, k) then [x] else [])
  {
    forall y | !le(y, x)
      ensures !(Tie(le, x, k) && Tie(le, y, k))
    {
      NoDoubleTie(le, x, y, k);
    }
    InsertBackTiesPastAll(le, s, x, k);
  }

  /** `InsertBackTies`, given that nothing `x` moves past ties with `x`'s key. */
  lemma {:induction false} InsertBackTiesPastAll<T>(le: (T, T) -> bool, s: seq<T>, x: T, k: T)
    requires forall y :: !le(y, x) ==> !(Tie(le, x, k) && Tie(le, y, k))
    ensures Ties(le, InsertBack(le, s, x), k) == Ties(le, s, k) + (if Tie(le, x, k) then [x] else [])
    decreases |s|
  {
    if |s| == 0 || le(s[|s| - 1], x) {
      InsertBackAtEnd(le, s, x);
      TiesSnoc(le, s, x, k);
    } else {
      InsertBackTiesPastAll(le, s[..|s| - 1], x, k);
      InsertBackTiesStep(le, s, x, k);
    }
  }

  /** The inductive step of `InsertBackTiesPastAll`: `x` moves past the last element. */
  lemma InsertBackTiesStep<T>(le: (T, T) -> bool, s: seq<T>, x: T, k: T)
    requires |s| > 0 && !le(s[|s| - 1], x)
    requires !(Tie(le, x, k) && Tie(le, s[|s| - 1], k))
    requires Ties(le, InsertBack(le, s[..|s| - 1], x), k) == Ties(le, s[..|s| - 1], k) + (if Tie(le, x, k) then [x] else [])
    ensures Ties(le, InsertBack(le, s, x), k) == Ties(le, s, k) + (if Tie(le, x, k) then [x] else [])
  {
    InsertBackPast(le, s, x);
    TiesPast(le, s, x, InsertBack(le, s[..|s| - 1], x), k);
  }

  /** The tie bookkeeping of moving `x` past the last element of `s`, which it does not
      tie with. */
  lemma TiesPast<T>(le: (T, T) -> bool, s: seq<T>, x: T, ins: seq<T>, k: T)
    requires |s| > 0
    requires !(Tie(le, x, k) && Tie(le, s[|s| - 1], k))
    requires Ties(le, ins, k) == Ties(le, s[..|s| - 1], k) + (if Tie(le, x, k) then [x] else [])
    ensures Ties(le, ins + [s[|s| - 1]], k) == Ties(le, s, k) + (if Tie(le, x, k) then [x] else [])
  {
    TiesSnoc(le, ins, s[|s| - 1], k);
  }

  lemma TiesSnoc<T>(le: (T, T) -> bool, s: seq<T>, y: T, k: T)
    ensures Ties(le, s + [y], k) == Ties(le, s, k) + (if Tie(le, y, k) then [y] else [])
  {
    assert (s + [y])[..|s|] == s;
  }

  /** An element before the last one is inserted before it. */
  lemma InsertBackPast<T>(le: (T, T) -> bool, s: seq<T>, x: T)
    requires |s| > 0 && !le(s[|s| - 1], x)
    ensures InsertBack(le, s, x) == InsertBack(le, s[..|s| - 1], x) + [s[|s| - 1]]
  {
  }

  /** Stability: elements that tie keep their relative order. */
  lemma {:induction false} SortStable<T(!new)>(le: (T, T) -> bool, s: seq<T>, k: T)
    requires TotalPreorder(le)
    ensures Ties(le, Sort(le, s), k) == Ties(le, s, k)
    decreases |s|
  {
    if |s| > 0 {
      SortStable(le, s[..|s| - 1], k);
      InsertBackTies(le, Sort(le, s[..|s| - 1]), s[|s| - 1], k);
    }
  }

  /** A sequence that is already sorted is left as it is. */
  lemma {:induction false} SortSortedIdentity<T(!new)>(le: (T, T) -> bool, s: seq<T>)
    requires Sorted(le, s)
    ensures Sort(le, s) == s
    decreases |s|
  {
    if |s| > 0 {
      var init := s[..|s| - 1];
      SortedPrefix(le, s);
      SortSortedIdentity(le, init);
      InsertBackAtEnd(le, init, s[|s| - 1]);
      assert init + [s[|s| - 1]] == s;
    }
  }

  lemma SortedPrefix<T>(le: (T, T) -> bool, s: seq<T>)
    requires Sorted(le, s) && |s| > 0
    ensures Sorted(le, s[..|s| - 1])
    ensures |s| > 1 ==> le(s[|s| - 2], s[|s| - 1])
  {
    var init := s[..|s| - 1];
    forall i, j | 0 <= i < j < |init|
      ensures le(init[i], init[j])
    {
      assert init[i] == s[i] && init[j] == s[j];
    }
  }

  /** An element not before the last one is appended. */
  lemma InsertBackAtEnd<T>(le: (T, T) -> bool, s: seq<T>, x: T)
    requires |s| == 0 || le(s[|s| - 1], x)
    ensures InsertBack(le, s, x) == s + [x]
  {
  }

  /** Sorting twice is sorting once. */
  lemma SortIdempotent<T(!new)>(le: (T, T) -> bool, s: seq<T>)
    requires TotalPreorder(le)
    ensures Sort(le, Sort(le, s)) == Sort(le, s)
  {
    SortSorted(le, s);
    SortSortedIdentity(le, Sort(le, s));
  }
}
