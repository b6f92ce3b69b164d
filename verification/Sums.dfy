/** Sums over lists and sets, and the bounded sums of the `Zatoshis` type. */
module Sums {
  import opened Wrappers

  const MAX_MONEY: int := 21_000_000 * 100_000_000

  /** An amount: never negative, never more than there can be. */
  type Zatoshis = z: int | 0 <= z <= MAX_MONEY

  function SumOf<T>(f: T -> nat, xs: seq<T>): nat {
    if xs == [] then 0 else SumOf(f, xs[..|xs| - 1]) + f(xs[|xs| - 1])
  }

  function CheckedAdd(a: Zatoshis, b: nat): Option<Zatoshis> {
    if a + b <= MAX_MONEY then Some(a + b) else None
  }

  /** `try_fold` with checked addition: fails as soon as a partial sum is too large. */
  function CheckedSum<T>(f: T -> nat, xs: seq<T>): Option<Zatoshis> {
    if xs == [] then Some(0)
    else
      var acc :- CheckedSum(f, xs[..|xs| - 1]);
      CheckedAdd(acc, f(xs[|xs| - 1]))
  }

  /** A checked sum fails exactly when the true sum is too large. */
  lemma {:induction false} CheckedSumMeaning<T>(f: T -> nat, xs: seq<T>)
    ensures CheckedSum(f, xs) == if SumOf(f, xs) <= MAX_MONEY then Some(SumOf(f, xs)) else None
  {
    if xs != [] {
      CheckedSumMeaning(f, xs[..|xs| - 1]);
    }
  }

  lemma {:induction false} SumOfConcat<T>(f: T -> nat, xs: seq<T>, ys: seq<T>)
    ensures SumOf(f, xs + ys) == SumOf(f, xs) + SumOf(f, ys)
  {
    if ys == [] {
      assert xs + ys == xs;
    } else {
      assert (xs + ys)[..|xs + ys| - 1] == xs + ys[..|ys| - 1];
      SumOfConcat(f, xs, ys[..|ys| - 1]);
    }
  }

  /** A sum only depends on the values added. */
  lemma {:induction false} SumOfCongruent<T, U>(f: T -> nat, g: U -> nat, xs: seq<T>, ys: seq<U>)
    requires |xs| == |ys|
    requires forall i :: 0 <= i < |xs| ==> f(xs[i]) == g(ys[i])
    ensures SumOf(f, xs) == SumOf(g, ys)
  {
    if xs != [] {
      SumOfCongruent(f, g, xs[..|xs| - 1], ys[..|ys| - 1]);
    }
  }

  predicate NoDuplicates<T(==)>(xs: seq<T>) {
    forall i, j :: 0 <= i < j < |xs| ==> xs[i] != xs[j]
  }

  ghost function Elements<T>(xs: seq<T>): set<T> {
    set x | x in xs
  }

  ghost function SumSet<T>(f: T -> nat, s: set<T>): nat {
    if s == {} then 0 else
      var x :| x in s;
      f(x) + SumSet(f, s - {x})
  }

  lemma {:induction false} SumSetRemove<T>(f: T -> nat, s: set<T>, x: T)
    requires x in s
    ensures SumSet(f, s) == f(x) + SumSet(f, s - {x})
    decreases s
  {
    var y :| y in s && SumSet(f, s) == f(y) + SumSet(f, s - {y});
    if y != x {
      SumSetRemove(f, s - {y}, x);
      SumSetRemove(f, s - {x}, y);
      assert s - {y} - {x} == s - {x} - {y};
    }
  }

  /** Summing a list without repetitions is summing its set of elements. */
  lemma {:induction false} SumOfDistinct<T>(f: T -> nat, xs: seq<T>)
    requires NoDuplicates(xs)
    ensures SumOf(f, xs) == SumSet(f, Elements(xs))
  {
    if xs != [] {
      var front, last := xs[..|xs| - 1], xs[|xs| - 1];
      SumOfDistinct(f, front);
      assert xs == front + [last];
      assert last !in front;
      assert Elements(xs) - {last} == Elements(front);
      SumSetRemove(f, Elements(xs), last);
    }
  }

  lemma {:induction false} SumSetSplit<T>(f: T -> nat, s: set<T>, part: set<T>)
    requires part <= s
    ensures SumSet(f, s) == SumSet(f, part) + SumSet(f, s - part)
    decreases part
  {
    if part == {} {
      assert s - part == s;
    } else {
      var x :| x in part;
      SumSetRemove(f, s, x);
      SumSetRemove(f, part, x);
      SumSetSplit(f, s - {x}, part - {x});
      assert s - {x} - (part - {x}) == s - part;
    }
  }

  // ---------- Lists of lists ----------

  function FlatMap<S, T>(f: S -> seq<T>, xs: seq<S>): seq<T> {
    if |xs| == 0 then [] else FlatMap(f, xs[..|xs| - 1]) + f(xs[|xs| - 1])
  }

  /** Any two different places, each an entry of the list of some element, hold different things. */
  ghost predicate PlacesDiffer<S, T>(f: S -> seq<T>, xs: seq<S>) {
    forall i, a, j, b ::
      0 <= i < |xs| && 0 <= a < |f(xs[i])| && 0 <= j < |xs| && 0 <= b < |f(xs[j])| && (i, a) != (j, b) ==>
        f(xs[i])[a] != f(xs[j])[b]
  }

  lemma {:induction false} FlatMapHas<S, T>(f: S -> seq<T>, xs: seq<S>, x: T)
    ensures x in FlatMap(f, xs) <==> exists i, a :: 0 <= i < |xs| && 0 <= a < |f(xs[i])| && f(xs[i])[a] == x
  {
    if |xs| > 0 {
      var n := |xs| - 1;
      var front := xs[..n];
      FlatMapHas(f, front, x);
      if x in FlatMap(f, front) {
        var i, a :| 0 <= i < |front| && 0 <= a < |f(front[i])| && f(front[i])[a] == x;
        assert f(xs[i])[a] == x;
      }
      if x in f(xs[n]) {
        var a :| 0 <= a < |f(xs[n])| && f(xs[n])[a] == x;
        assert f(xs[n])[a] == x;
      }
      if i, a :| 0 <= i < |xs| && 0 <= a < |f(xs[i])| && f(xs[i])[a] == x {
        assert i < n ==> f(front[i])[a] == x;
      }
    }
  }

  lemma ConcatDistinctIff<T>(xs: seq<T>, ys: seq<T>)
    ensures NoDuplicates(xs + ys) <==> NoDuplicates(xs) && NoDuplicates(ys) && forall y :: y in ys ==> y !in xs
  {
    var zs := xs + ys;
    if NoDuplicates(zs) {
      forall i, j | 0 <= i < j < |xs| ensures xs[i] != xs[j] {
        assert zs[i] != zs[j];
      }
      forall i, j | 0 <= i < j < |ys| ensures ys[i] != ys[j] {
        assert zs[|xs| + i] != zs[|xs| + j];
      }
      forall y | y in ys ensures y !in xs {
        var j :| 0 <= j < |ys| && ys[j] == y;
        assert zs[|xs| + j] == y;
        assert forall i :: 0 <= i < |xs| ==> zs[i] == xs[i];
      }
    }
    if NoDuplicates(xs) && NoDuplicates(ys) && forall y :: y in ys ==> y !in xs {
      forall i, j | 0 <= i < j < |zs| ensures zs[i] != zs[j] {
        assert zs[i] == if i < |xs| then xs[i] else ys[i - |xs|];
        assert zs[j] == if j < |xs| then xs[j] else ys[j - |xs|];
        assert i < |xs| <= j ==> xs[i] in xs && ys[j - |xs|] in ys;
      }
    }
  }

  lemma PlacesDifferStep<S, T>(f: S -> seq<T>, xs: seq<S>)
    requires |xs| > 0
    ensures
      var front, last := xs[..|xs| - 1], f(xs[|xs| - 1]);
      PlacesDiffer(f, xs) <==>
      PlacesDiffer(f, front) && NoDuplicates(last) && forall y :: y in last ==> y !in FlatMap(f, front)
  {
    hide FlatMap;
    var n := |xs| - 1;
    var front, last := xs[..n], f(xs[n]);
    assert forall i :: 0 <= i < n ==> front[i] == xs[i];
    if PlacesDiffer(f, xs) {
      forall i, j | 0 <= i < j < |last| ensures last[i] != last[j] {
        assert f(xs[n])[i] != f(xs[n])[j];
      }
      forall y | y in last ensures y !in FlatMap(f, front) {
        var b :| 0 <= b < |last| && last[b] == y;
        FlatMapHas(f, front, y);
        assert forall i, a :: 0 <= i < |front| && 0 <= a < |f(front[i])| ==> f(front[i])[a] != f(xs[n])[b];
      }
    }
    if PlacesDiffer(f, front) && NoDuplicates(last) && forall y :: y in last ==> y !in FlatMap(f, front) {
      forall i, a, j, b | 0 <= i < |xs| && 0 <= a < |f(xs[i])| && 0 <= j < |xs| && 0 <= b < |f(xs[j])|
                          && (i, a) != (j, b)
        ensures f(xs[i])[a] != f(xs[j])[b]
      {
        if i < n && j < n {
          assert f(front[i])[a] != f(front[j])[b];
        } else if i < n {
          FlatMapHas(f, front, f(front[i])[a]);
          assert last[b] in last;
        } else if j < n {
          FlatMapHas(f, front, f(front[j])[b]);
          assert last[a] in last;
        }
      }
    }
  }

  lemma {:induction false} FlatMapDistinctIff<S, T>(f: S -> seq<T>, xs: seq<S>)
    ensures NoDuplicates(FlatMap(f, xs)) <==> PlacesDiffer(f, xs)
  {
    if |xs| > 0 {
      FlatMapDistinctIff(f, xs[..|xs| - 1]);
      PlacesDifferStep(f, xs);
      ConcatDistinctIff(FlatMap(f, xs[..|xs| - 1]), f(xs[|xs| - 1]));
    }
  }

  // ---------- Iterating a map in key order ----------

  lemma MinExists(s: set<nat>)
    requires s != {}
    ensures exists m :: m in s && forall x :: x in s ==> m <= x
    decreases s
  {
    var m :| m in s;
    var below := set x | x in s && x < m;
    if below == {} {
      forall x | x in s ensures m <= x {
        assert x !in below;
      }
    } else {
      assert m !in below;
      MinExists(below);
      var n :| n in below && forall x :: x in below ==> n <= x;
      forall x | x in s ensures n <= x {
        assert x < m ==> x in below;
      }
    }
  }

  function Min(s: set<nat>): (m: nat)
    requires s != {}
    ensures m in s && forall x :: x in s ==> m <= x
  {
    MinExists(s);
    var m :| m in s && forall x :: x in s ==> m <= x;
    m
  }

  /** `r` lists `s` in increasing order. */
  ghost predicate IsAscending(s: set<nat>, r: seq<nat>) {
    && (forall x :: x in r <==> x in s)
    && (forall i, j :: 0 <= i < j < |r| ==> r[i] < r[j])
    && |r| == |s|
  }

  lemma LeastFirst(s: set<nat>, m: nat, rest: seq<nat>)
    requires m in s && (forall x :: x in s ==> m <= x)
    requires IsAscending(s - {m}, rest)
    ensures IsAscending(s, [m] + rest)
  {
    var r := [m] + rest;
    forall x ensures x in r <==> x in s {
      assert x in r <==> x == m || x in rest;
    }
    forall i, j | 0 <= i < j < |r| ensures r[i] < r[j] {
      assert r[j] == rest[j - 1] && rest[j - 1] in rest;
      assert i > 0 ==> r[i] == rest[i - 1];
    }
  }

  /** The keys in increasing order. */
  function Ascending(s: set<nat>): (r: seq<nat>)
    ensures IsAscending(s, r)
    decreases |s|
  {
    if s == {} then []
    else
      var m := Min(s);
      var rest := Ascending(s - {m});
      LeastFirst(s, m, rest);
      [m] + rest
  }
}
