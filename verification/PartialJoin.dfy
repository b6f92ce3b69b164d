/**
 The order theory behind the PCZT Combiner.

 A merge is a partial join: where it succeeds it yields the least upper bound of its two
 arguments in an information order. This module states those laws once, proves them for
 the three field shapes a PCZT is made of (optional fields, maps and growing lists), and
 derives what they imply for folding a list of copies in any order.
 */
module PartialJoin {
  import opened Wrappers

  /** `leq` is a partial order and `join(a, b)` is its least upper bound, defined exactly when
      `a` and `b` have an upper bound at all. */
  ghost predicate JoinLaws<T(!new)>(leq: (T, T) -> bool, join: (T, T) -> Option<T>) {
    && (forall a :: leq(a, a))
    && (forall a, b, c :: leq(a, b) && leq(b, c) ==> leq(a, c))
    && (forall a, b :: leq(a, b) && leq(b, a) ==> a == b)
    && (forall a, b :: join(a, b).Some? ==> leq(a, join(a, b).value) && leq(b, join(a, b).value))
    && (forall a, b, u :: leq(a, u) && leq(b, u) ==> join(a, b).Some? && leq(join(a, b).value, u))
  }

  // ---------- Optional fields ----------

  predicate OptionLeq<T(==)>(a: Option<T>, b: Option<T>) {
    a.None? || a == b
  }

  /** `merge_optional`: keep whichever side is set, fail on unequal values. */
  function MergeOptional<T(==)>(lhs: Option<T>, rhs: Option<T>): Option<Option<T>> {
    match (lhs, rhs)
    case (_, None) => Some(lhs)
    case (None, Some(_)) => Some(rhs)
    case (Some(l), Some(r)) => if l == r then Some(lhs) else None
  }

  /** No conflict: the merge of the two succeeds. */
  predicate OptionsAgree<T(==)>(a: Option<T>, b: Option<T>) {
    a.Some? && b.Some? ==> a == b
  }

  lemma OptionSucceedsIff<T>(a: Option<T>, b: Option<T>)
    ensures MergeOptional(a, b).Some? <==> OptionsAgree(a, b)
  {
  }

  lemma OptionLeast<T>(a: Option<T>, b: Option<T>, u: Option<T>)
    requires OptionLeq(a, u) && OptionLeq(b, u)
    ensures MergeOptional(a, b).Some? && OptionLeq(MergeOptional(a, b).value, u)
  {
  }

  // ---------- Map fields ----------

  predicate MapLeq<K, V(==)>(a: map<K, V>, b: map<K, V>) {
    forall k :: k in a ==> k in b && a[k] == b[k]
  }

  predicate MapsAgree<K, V(==)>(a: map<K, V>, b: map<K, V>) {
    forall k :: k in a && k in b ==> a[k] == b[k]
  }

  function MergeMap<K, V(==)>(lhs: map<K, V>, rhs: map<K, V>): Option<map<K, V>> {
    if MapsAgree(lhs, rhs) then Some(lhs + rhs) else None
  }

  lemma MapLeast<K, V>(a: map<K, V>, b: map<K, V>, u: map<K, V>)
    requires MapLeq(a, u) && MapLeq(b, u)
    ensures MergeMap(a, b).Some? && MapLeq(MergeMap(a, b).value, u)
  {
  }

  /** `merge_map`: move the right-hand entries over one key at a time, failing at the first
      key that both sides hold with different values. */
  method MergeMapInto<K(==), V(==)>(lhs: map<K, V>, rhs: map<K, V>) returns (merged: Option<map<K, V>>)
    ensures merged == MergeMap(lhs, rhs)
  {
    var acc := lhs;
    var pending := rhs.Keys;
    while pending != {}
      invariant pending <= rhs.Keys
      invariant acc.Keys == lhs.Keys + (rhs.Keys - pending)
      invariant forall k :: k in lhs ==> acc[k] == lhs[k]
      invariant forall k :: k in rhs && k !in pending ==> acc[k] == rhs[k]
      decreases |pending|
    {
      var key :| key in pending;
      if key in acc {
        if acc[key] != rhs[key] {
          return None;
        }
      } else {
        acc := acc[key := rhs[key]];
      }
      pending := pending - {key};
    }
    assert acc == lhs + rhs;
    return Some(acc);
  }

  // ---------- Lists that grow at the end ----------

  /** `xs` can become `ys`: every entry it has is refined in place, and new entries are appended
      only if the side holding `xs` is still modifiable. */
  predicate ListLeq<T>(leq: (T, T) -> bool, modifiable: bool, xs: seq<T>, ys: seq<T>) {
    && |xs| <= |ys|
    && (|xs| < |ys| ==> modifiable)
    && forall i :: 0 <= i < |xs| ==> leq(xs[i], ys[i])
  }

  /** The length check that precedes every list merge. */
  predicate LengthsCompatible(lhsModifiable: bool, rhsModifiable: bool, lhsLength: nat, rhsLength: nat) {
    && (lhsLength < rhsLength ==> lhsModifiable)
    && (lhsLength > rhsLength ==> rhsModifiable)
  }

  /** Merges the entries both lists have. */
  function MergeOverlap<T>(join: (T, T) -> Option<T>, xs: seq<T>, ys: seq<T>): (r: Option<seq<T>>)
    ensures r.Some? ==>
              && |r.value| == (if |xs| <= |ys| then |xs| else |ys|)
              && forall i :: 0 <= i < |r.value| ==> join(xs[i], ys[i]) == Some(r.value[i])
    ensures r.None? ==> exists i :: 0 <= i < |xs| && i < |ys| && join(xs[i], ys[i]).None?
  {
    if xs == [] || ys == [] then Some([])
    else
      match join(xs[0], ys[0])
      case None => None
      case Some(head) =>
        match MergeOverlap(join, xs[1..], ys[1..])
        case None =>
          var i :| 0 <= i < |xs[1..]| && i < |ys[1..]| && join(xs[1..][i], ys[1..][i]).None?;
          assert join(xs[i + 1], ys[i + 1]).None?;
          None
        case Some(tail) => Some([head] + tail)
  }

  /** The longer list's entries beyond the overlap. */
  function Excess<T>(xs: seq<T>, ys: seq<T>): seq<T> {
    if |xs| < |ys| then ys[|xs|..] else xs[|ys|..]
  }

  function MergeList<T>(join: (T, T) -> Option<T>, lhsModifiable: bool, rhsModifiable: bool,
                        xs: seq<T>, ys: seq<T>): Option<seq<T>>
  {
    if !LengthsCompatible(lhsModifiable, rhsModifiable, |xs|, |ys|) then None
    else
      var overlap :- MergeOverlap(join, xs, ys);
      Some(overlap + Excess(xs, ys))
  }

  /** The list part of every `Bundle::merge`: take over the excess of a longer right-hand list,
      then walk both lists together and merge entry by entry. */
  method MergeListInPlace<T>(join: (T, T) -> Option<T>, lhsModifiable: bool, rhsModifiable: bool,
                             lhs: seq<T>, rhs: seq<T>) returns (merged: Option<seq<T>>)
    ensures merged == MergeList(join, lhsModifiable, rhsModifiable, lhs, rhs)
  {
    if (!lhsModifiable && |lhs| < |rhs|) || (!rhsModifiable && |lhs| > |rhs|) {
      return None;
    }
    var xs, ys := lhs, rhs;
    if |xs| < |ys| {
      xs, ys := xs + ys[|xs|..], ys[..|xs|];
    }
    var i := 0;
    while i < |xs| && i < |ys|
      invariant 0 <= i <= |ys| <= |xs|
      invariant forall k :: 0 <= k < i ==> join(lhs[k], rhs[k]) == Some(xs[k])
      invariant forall k :: i <= k < |ys| ==> xs[k] == lhs[k]
      invariant xs[|ys|..] == Excess(lhs, rhs)
    {
      var entry := join(xs[i], ys[i]);
      if entry.None? {
        assert join(lhs[i], rhs[i]).None?;
        return None;
      }
      xs := xs[i := entry.value];
      i := i + 1;
    }
    OverlapDone(join, lhs, rhs, xs[..|ys|]);
    assert xs == xs[..|ys|] + xs[|ys|..];
    return Some(xs);
  }

  lemma OverlapDone<T>(join: (T, T) -> Option<T>, xs: seq<T>, ys: seq<T>, merged: seq<T>)
    requires |merged| == if |xs| <= |ys| then |xs| else |ys|
    requires forall i :: 0 <= i < |merged| ==> join(xs[i], ys[i]) == Some(merged[i])
    ensures MergeOverlap(join, xs, ys) == Some(merged)
  {
    assert MergeOverlap(join, xs, ys).Some?;
    assert MergeOverlap(join, xs, ys).value == merged;
  }

  lemma ListUpper<T(!new)>(leq: (T, T) -> bool, join: (T, T) -> Option<T>, mx: bool, my: bool,
                           xs: seq<T>, ys: seq<T>)
    requires JoinLaws(leq, join)
    requires MergeList(join, mx, my, xs, ys).Some?
    ensures ListLeq(leq, mx, xs, MergeList(join, mx, my, xs, ys).value)
    ensures ListLeq(leq, my, ys, MergeList(join, mx, my, xs, ys).value)
  {
  }

  lemma ListLeast<T(!new)>(leq: (T, T) -> bool, join: (T, T) -> Option<T>, mx: bool, my: bool,
                           xs: seq<T>, ys: seq<T>, us: seq<T>)
    requires JoinLaws(leq, join)
    requires ListLeq(leq, mx, xs, us) && ListLeq(leq, my, ys, us)
    ensures MergeList(join, mx, my, xs, ys).Some?
    ensures ListLeq(leq, mx && my, MergeList(join, mx, my, xs, ys).value, us)
  {
    forall i | 0 <= i < |xs| && i < |ys|
      ensures join(xs[i], ys[i]).Some? && leq(join(xs[i], ys[i]).value, us[i])
    {
      assert leq(xs[i], us[i]) && leq(ys[i], us[i]);
    }
    var overlap := MergeOverlap(join, xs, ys);
    assert overlap.Some?;
    var merged := overlap.value + Excess(xs, ys);
    forall i | 0 <= i < |merged| ensures leq(merged[i], us[i]) {
    }
  }

  lemma ListTransitive<T(!new)>(leq: (T, T) -> bool, join: (T, T) -> Option<T>, mx: bool, my: bool,
                                xs: seq<T>, ys: seq<T>, zs: seq<T>)
    requires JoinLaws(leq, join)
    requires my ==> mx
    requires ListLeq(leq, mx, xs, ys) && ListLeq(leq, my, ys, zs)
    ensures ListLeq(leq, mx, xs, zs)
  {
    forall i | 0 <= i < |xs| ensures leq(xs[i], zs[i]) {
      assert leq(xs[i], ys[i]) && leq(ys[i], zs[i]);
    }
  }

  lemma ListAntisymmetric<T(!new)>(leq: (T, T) -> bool, join: (T, T) -> Option<T>, mx: bool, my: bool,
                                   xs: seq<T>, ys: seq<T>)
    requires JoinLaws(leq, join)
    requires ListLeq(leq, mx, xs, ys) && ListLeq(leq, my, ys, xs)
    ensures xs == ys
  {
    forall i | 0 <= i < |xs| ensures xs[i] == ys[i] {
      assert leq(xs[i], ys[i]) && leq(ys[i], xs[i]);
    }
  }

  lemma ListCommutes<T(!new)>(leq: (T, T) -> bool, join: (T, T) -> Option<T>, mx: bool, my: bool,
                              xs: seq<T>, ys: seq<T>)
    requires JoinLaws(leq, join)
    ensures MergeList(join, mx, my, xs, ys) == MergeList(join, my, mx, ys, xs)
  {
    var l, r := MergeList(join, mx, my, xs, ys), MergeList(join, my, mx, ys, xs);
    if l.Some? {
      ListUpper(leq, join, mx, my, xs, ys);
      ListLeast(leq, join, my, mx, ys, xs, l.value);
    }
    if r.Some? {
      ListUpper(leq, join, my, mx, ys, xs);
      ListLeast(leq, join, mx, my, xs, ys, r.value);
      ListAntisymmetric(leq, join, mx && my, mx && my, l.value, r.value);
    }
  }

  // ---------- Agreement: when merges succeed, said without merging ----------

  /** `agree` tells when `join` succeeds. */
  ghost predicate Decides<T(!new)>(agree: (T, T) -> bool, join: (T, T) -> Option<T>) {
    forall a, b :: agree(a, b) <==> join(a, b).Some?
  }

  /** What agrees with both sides of a merge agrees with the result. */
  ghost predicate Coherent<T(!new)>(agree: (T, T) -> bool, join: (T, T) -> Option<T>) {
    forall a, b, c :: join(a, b).Some? && agree(a, c) && agree(b, c) ==> agree(join(a, b).value, c)
  }

  predicate OverlapsAgree<T>(agree: (T, T) -> bool, xs: seq<T>, ys: seq<T>) {
    forall i :: 0 <= i < |xs| && i < |ys| ==> agree(xs[i], ys[i])
  }

  /** Every shorter list is on a modifiable side, and overlapping entries agree. */
  predicate ListsAgree<T>(agree: (T, T) -> bool, mx: bool, my: bool, xs: seq<T>, ys: seq<T>) {
    LengthsCompatible(mx, my, |xs|, |ys|) && OverlapsAgree(agree, xs, ys)
  }

  lemma ListSucceedsIff<T(!new)>(agree: (T, T) -> bool, join: (T, T) -> Option<T>, mx: bool, my: bool,
                                 xs: seq<T>, ys: seq<T>)
    requires Decides(agree, join)
    ensures MergeList(join, mx, my, xs, ys).Some? <==> ListsAgree(agree, mx, my, xs, ys)
  {
  }

  /** A list that agrees with two lists agrees with their merge. */
  lemma ListCoherent<T(!new)>(agree: (T, T) -> bool, join: (T, T) -> Option<T>, mx: bool, my: bool, mz: bool,
                              xs: seq<T>, ys: seq<T>, zs: seq<T>)
    requires Decides(agree, join) && Coherent(agree, join)
    requires MergeList(join, mx, my, xs, ys).Some?
    requires ListsAgree(agree, mx, mz, xs, zs) && ListsAgree(agree, my, mz, ys, zs)
    ensures ListsAgree(agree, mx && my, mz, MergeList(join, mx, my, xs, ys).value, zs)
  {
    var merged := MergeList(join, mx, my, xs, ys).value;
    forall i | 0 <= i < |merged| && i < |zs| ensures agree(merged[i], zs[i]) {
      assert i < |xs| ==> agree(xs[i], zs[i]);
      assert i < |ys| ==> agree(ys[i], zs[i]);
      if i < |xs| && i < |ys| {
        assert join(xs[i], ys[i]) == Some(merged[i]);
      }
    }
  }

  // ---------- Folding a list of copies ----------

  /** `try_fold` from the left over a non-empty list. */
  function FoldMerge<T>(join: (T, T) -> Option<T>, xs: seq<T>): Option<T>
    requires |xs| > 0
  {
    if |xs| == 1 then Some(xs[0])
    else
      var acc :- FoldMerge(join, xs[..|xs| - 1]);
      join(acc, xs[|xs| - 1])
  }

  lemma FoldThree<T>(join: (T, T) -> Option<T>, a: T, b: T, c: T)
    ensures FoldMerge(join, [a, b, c]) == if join(a, b).Some? then join(join(a, b).value, c) else None
  {
    assert [a, b, c][..2] == [a, b] && [a, b][..1] == [a];
    assert FoldMerge(join, [a]) == Some(a);
    assert FoldMerge(join, [a, b]) == join(a, b);
  }

  /** The laws a fold needs. Reflexivity is only asked of elements that are comparable to
      something, because a PCZT with reserved flag bits set merges with nothing. */
  ghost predicate FoldLaws<T(!new)>(leq: (T, T) -> bool, join: (T, T) -> Option<T>) {
    && (forall a, b, c :: leq(a, b) && leq(b, c) ==> leq(a, c))
    && (forall a, b :: join(a, b).Some? ==> leq(a, join(a, b).value) && leq(b, join(a, b).value))
    && (forall a, b, u :: join(a, b).Some? && leq(a, u) && leq(b, u) ==> leq(join(a, b).value, u))
  }

  /** No failure without a reason: the join exists whenever an upper bound does. */
  ghost predicate Bounded<T(!new)>(leq: (T, T) -> bool, join: (T, T) -> Option<T>) {
    forall a, b, u :: leq(a, u) && leq(b, u) ==> join(a, b).Some?
  }

  ghost predicate IsUpperBound<T>(leq: (T, T) -> bool, xs: seq<T>, u: T) {
    forall i :: 0 <= i < |xs| ==> leq(xs[i], u)
  }

  lemma {:induction false} FoldUpper<T(!new)>(leq: (T, T) -> bool, join: (T, T) -> Option<T>, xs: seq<T>)
    requires FoldLaws(leq, join)
    requires |xs| >= 2 && FoldMerge(join, xs).Some?
    ensures IsUpperBound(leq, xs, FoldMerge(join, xs).value)
    decreases |xs|
  {
    var front, last := xs[..|xs| - 1], xs[|xs| - 1];
    var acc := FoldMerge(join, front).value;
    var r := FoldMerge(join, xs).value;
    assert join(acc, last) == Some(r);
    if |xs| > 2 {
      FoldUpper(leq, join, front);
    }
    forall i | 0 <= i < |xs| ensures leq(xs[i], r) {
      if i < |xs| - 1 {
        assert front[i] == xs[i];
        assert |xs| > 2 ==> leq(front[i], acc);
        assert leq(acc, r);
      }
    }
  }

  lemma {:induction false} FoldLeast<T(!new)>(leq: (T, T) -> bool, join: (T, T) -> Option<T>, xs: seq<T>, u: T)
    requires FoldLaws(leq, join)
    requires |xs| > 0 && IsUpperBound(leq, xs, u)
    ensures FoldMerge(join, xs).Some? ==> leq(FoldMerge(join, xs).value, u)
    ensures Bounded(leq, join) ==> FoldMerge(join, xs).Some?
    decreases |xs|
  {
    if |xs| > 1 {
      var front := xs[..|xs| - 1];
      forall i | 0 <= i < |front| ensures leq(front[i], u) {
        assert front[i] == xs[i];
      }
      FoldLeast(leq, join, front, u);
      assert leq(xs[|xs| - 1], u);
    }
  }

  /** What every copy satisfies and every merge keeps, the fold satisfies. */
  lemma {:induction false} FoldInvariant<T(!new)>(join: (T, T) -> Option<T>, keeps: T -> bool, xs: seq<T>)
    requires |xs| > 0
    requires forall i :: 0 <= i < |xs| ==> keeps(xs[i])
    requires forall a, b :: keeps(a) && keeps(b) && join(a, b).Some? ==> keeps(join(a, b).value)
    ensures FoldMerge(join, xs).Some? ==> keeps(FoldMerge(join, xs).value)
    decreases |xs|
  {
    if |xs| > 1 {
      FoldInvariant(join, keeps, xs[..|xs| - 1]);
    }
  }

  lemma SameElements<T>(xs: seq<T>, ys: seq<T>, i: nat) returns (j: nat)
    requires multiset(xs) == multiset(ys)
    requires i < |ys|
    ensures j < |xs| && xs[j] == ys[i]
  {
    assert ys[i] in multiset(ys);
    assert ys[i] in multiset(xs);
    j :| 0 <= j < |xs| && xs[j] == ys[i];
  }

  lemma BoundOfPermutation<T>(leq: (T, T) -> bool, xs: seq<T>, ys: seq<T>, u: T)
    requires multiset(xs) == multiset(ys)
    requires IsUpperBound(leq, xs, u)
    ensures IsUpperBound(leq, ys, u)
  {
    forall i | 0 <= i < |ys| ensures leq(ys[i], u) {
      var j := SameElements(xs, ys, i);
    }
  }

  /** Two orders of the same copies that both fold give results that bound each other. */
  lemma FoldOrderAgrees<T(!new)>(leq: (T, T) -> bool, join: (T, T) -> Option<T>, xs: seq<T>, ys: seq<T>)
    requires FoldLaws(leq, join)
    requires |xs| >= 2 && multiset(xs) == multiset(ys)
    requires |ys| == |xs|
    requires FoldMerge(join, xs).Some?
    ensures FoldMerge(join, ys).Some? ==>
              && leq(FoldMerge(join, xs).value, FoldMerge(join, ys).value)
              && leq(FoldMerge(join, ys).value, FoldMerge(join, xs).value)
    ensures Bounded(leq, join) ==> FoldMerge(join, ys).Some?
  {
    FoldUpper(leq, join, xs);
    BoundOfPermutation(leq, xs, ys, FoldMerge(join, xs).value);
    FoldLeast(leq, join, ys, FoldMerge(join, xs).value);
    if FoldMerge(join, ys).Some? {
      FoldUpper(leq, join, ys);
      BoundOfPermutation(leq, ys, xs, FoldMerge(join, ys).value);
      FoldLeast(leq, join, xs, FoldMerge(join, ys).value);
    }
  }

  /** Both groupings of three copies that succeed give results that bound each other; with no
      unreasoned failure, one grouping succeeds exactly when the other does. */
  lemma GroupingAgrees<T(!new)>(leq: (T, T) -> bool, join: (T, T) -> Option<T>, a: T, b: T, c: T)
    requires FoldLaws(leq, join)
    ensures
      var ab, bc := join(a, b), join(b, c);
      var left := if ab.Some? then join(ab.value, c) else None;
      var right := if bc.Some? then join(a, bc.value) else None;
      && (left.Some? && right.Some? ==> leq(left.value, right.value) && leq(right.value, left.value))
      && (Bounded(leq, join) ==> (left.Some? <==> right.Some?))
  {
    var ab, bc := join(a, b), join(b, c);
    if ab.Some? && join(ab.value, c).Some? {
      var left := join(ab.value, c).value;
      assert leq(a, left) && leq(b, left) && leq(c, left);
      assert bc.Some? ==> leq(bc.value, left);
    }
    if bc.Some? && join(a, bc.value).Some? {
      var right := join(a, bc.value).value;
      assert leq(a, right) && leq(b, right) && leq(c, right);
      assert ab.Some? ==> leq(ab.value, right);
    }
  }

  /** Once a prefix fails to fold, so does every longer list. */
  lemma {:induction false} FoldFailureSticks<T>(join: (T, T) -> Option<T>, xs: seq<T>, n: nat)
    requires 0 < n <= |xs|
    requires FoldMerge(join, xs[..n]).None?
    ensures FoldMerge(join, xs).None?
    decreases |xs|
  {
    if n == |xs| {
      assert xs[..n] == xs;
    } else {
      var front := xs[..|xs| - 1];
      assert front[..n] == xs[..n];
      FoldFailureSticks(join, front, n);
    }
  }

  // ---------- When every order folds ----------

  lemma SameLength<T>(xs: seq<T>, ys: seq<T>)
    requires multiset(xs) == multiset(ys)
    ensures |xs| == |ys|
  {
    assert |multiset(xs)| == |xs| && |multiset(ys)| == |ys|;
  }

  predicate PairwiseAgree<T>(agree: (T, T) -> bool, xs: seq<T>) {
    forall i, j :: 0 <= i < j < |xs| ==> agree(xs[i], xs[j])
  }

  /** A list without its `i`-th entry. */
  function Without<T>(xs: seq<T>, i: nat): seq<T>
    requires i < |xs|
  {
    xs[..i] + xs[i + 1..]
  }

  lemma WithoutEntry<T>(xs: seq<T>, i: nat)
    requires i < |xs|
    ensures multiset(xs) == multiset(Without(xs, i)) + multiset{xs[i]}
  {
    assert xs == xs[..i] + [xs[i]] + xs[i + 1..];
  }

  lemma WithoutSame<T>(xs: seq<T>, ys: seq<T>, k: nat, i: nat)
    requires multiset(xs) == multiset(ys)
    requires k < |xs| && i < |ys| && xs[k] == ys[i]
    ensures multiset(Without(xs, k)) == multiset(Without(ys, i))
  {
    WithoutEntry(xs, k);
    WithoutEntry(ys, i);
    assert multiset(Without(xs, k)) == multiset(xs) - multiset{xs[k]};
    assert multiset(Without(ys, i)) == multiset(ys) - multiset{ys[i]};
  }

  /** Two different places of a list hold what two different places of any reordering hold. */
  lemma PairOfPermutation<T>(xs: seq<T>, ys: seq<T>, i: nat, j: nat) returns (k: nat, l: nat)
    requires multiset(xs) == multiset(ys)
    requires i < |ys| && j < |ys| && i != j
    ensures k < |xs| && l < |xs| && k != l && xs[k] == ys[i] && xs[l] == ys[j]
  {
    k := SameElements(xs, ys, i);
    WithoutSame(xs, ys, k, i);
    var m := SameElements(Without(xs, k), Without(ys, i), if j < i then j else j - 1);
    l := if m < k then m else m + 1;
  }

  lemma PairwiseOfPermutation<T(!new)>(agree: (T, T) -> bool, xs: seq<T>, ys: seq<T>)
    requires forall a, b :: agree(a, b) ==> agree(b, a)
    requires multiset(xs) == multiset(ys) && PairwiseAgree(agree, xs)
    ensures PairwiseAgree(agree, ys)
  {
    forall i, j | 0 <= i < j < |ys| ensures agree(ys[i], ys[j]) {
      var k, l := PairOfPermutation(xs, ys, i, j);
      assert if k < l then agree(xs[k], xs[l]) else agree(xs[l], xs[k]);
    }
  }

  /** Copies that agree pairwise fold, and what agrees with all of them agrees with the result. */
  lemma {:induction false} PairwiseFolds<T(!new)>(agree: (T, T) -> bool, join: (T, T) -> Option<T>, xs: seq<T>)
    requires Decides(agree, join) && Coherent(agree, join)
    requires |xs| > 0 && PairwiseAgree(agree, xs)
    ensures FoldMerge(join, xs).Some?
    ensures forall z :: (forall i :: 0 <= i < |xs| ==> agree(xs[i], z)) ==> agree(FoldMerge(join, xs).value, z)
    decreases |xs|
  {
    if |xs| > 1 {
      var front, last := xs[..|xs| - 1], xs[|xs| - 1];
      assert forall i :: 0 <= i < |front| ==> front[i] == xs[i];
      PairwiseFolds(agree, join, front);
      var acc := FoldMerge(join, front).value;
      assert agree(acc, last);
      forall z | forall i :: 0 <= i < |xs| ==> agree(xs[i], z) ensures agree(FoldMerge(join, xs).value, z) {
        assert agree(acc, z) && agree(last, z);
      }
    }
  }

  /** The same copies with the `i`-th and the `j`-th in front. */
  function PairFirst<T>(xs: seq<T>, i: nat, j: nat): seq<T>
    requires i < j < |xs|
  {
    [xs[i], xs[j]] + Without(Without(xs, j), i)
  }

  lemma PairFirstPermutes<T>(xs: seq<T>, i: nat, j: nat)
    requires i < j < |xs|
    ensures multiset(PairFirst(xs, i, j)) == multiset(xs)
  {
    WithoutEntry(xs, j);
    WithoutEntry(Without(xs, j), i);
  }

  /** Every order of the copies folds exactly when the copies merge pairwise. */
  lemma EveryOrderFoldsIff<T(!new)>(agree: (T, T) -> bool, join: (T, T) -> Option<T>, xs: seq<T>)
    requires Decides(agree, join) && Coherent(agree, join)
    requires forall a, b :: agree(a, b) ==> agree(b, a)
    requires |xs| >= 2
    ensures (forall ys :: multiset(ys) == multiset(xs) ==> ys != [] && FoldMerge(join, ys).Some?) <==>
            PairwiseAgree(agree, xs)
  {
    if PairwiseAgree(agree, xs) {
      forall ys | multiset(ys) == multiset(xs) ensures ys != [] && FoldMerge(join, ys).Some? {
        SameLength(xs, ys);
        PairwiseOfPermutation(agree, xs, ys);
        PairwiseFolds(agree, join, ys);
      }
    } else {
      var i, j :| 0 <= i < j < |xs| && !agree(xs[i], xs[j]);
      var ys := PairFirst(xs, i, j);
      PairFirstPermutes(xs, i, j);
      assert ys[..2] == [xs[i], xs[j]];
      assert [xs[i], xs[j]][..1] == [xs[i]];
      FoldFailureSticks(join, ys, 2);
    }
  }
}
