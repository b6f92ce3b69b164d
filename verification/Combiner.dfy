/**
 The Combiner role: joining copies of one partial transaction that independent parties extended.

 Copies are ordered by the information they carry. A successful merge is the least upper bound
 in that order, so that two ways of combining the same copies cannot disagree on it. What the
 order leaves out, the value sums and the binding signature keys, is treated separately.
 */
module Combiner {
  import opened Wrappers
  import opened PartialJoin
  import opened Common
  import T = Transparent
  import S = Sapling
  import O = Orchard

  datatype Pczt = Pczt(
    global: Global,
    transparent: T.Bundle,
    sapling: S.Bundle,
    orchard: O.Bundle,
    ironwood: O.Bundle)

  datatype Error = NoPczts | DataMismatch

  function MergePczt(lhs: Pczt, rhs: Pczt): Option<Pczt> {
    var transparent := T.MergeBundle(lhs.transparent, rhs.transparent, lhs.global, rhs.global);
    var sapling := S.MergeBundle(lhs.sapling, rhs.sapling, lhs.global, rhs.global);
    var orchard := O.MergeBundle(lhs.orchard, rhs.orchard, lhs.global, rhs.global);
    var ironwood := O.MergeBundle(lhs.ironwood, rhs.ironwood, lhs.global, rhs.global);
    var global := MergeGlobal(lhs.global, rhs.global);
    if transparent.Some? && sapling.Some? && orchard.Some? && ironwood.Some? && global.Some?
    then Some(Pczt(global.value, transparent.value, sapling.value, orchard.value, ironwood.value))
    else None
  }

  /** `merge`: the bundles first, each in the context of its own global, then the globals. */
  method Merge(lhs: Pczt, rhs: Pczt) returns (r: Option<Pczt>)
    ensures r == MergePczt(lhs, rhs)
  {
    var transparent := T.MergeBundleInPlace(lhs.transparent, rhs.transparent, lhs.global, rhs.global);
    if transparent.None? {
      return None;
    }
    var sapling := S.MergeBundleInPlace(lhs.sapling, rhs.sapling, lhs.global, rhs.global);
    if sapling.None? {
      return None;
    }
    var orchard := O.MergeBundleInPlace(lhs.orchard, rhs.orchard, lhs.global, rhs.global);
    if orchard.None? {
      return None;
    }
    var ironwood := O.MergeBundleInPlace(lhs.ironwood, rhs.ironwood, lhs.global, rhs.global);
    if ironwood.None? {
      return None;
    }
    var global := MergeGlobalInPlace(lhs.global, rhs.global);
    if global.None? {
      return None;
    }
    return Some(Pczt(global.value, transparent.value, sapling.value, orchard.value, ironwood.value));
  }

  function CombineAll(pczts: seq<Pczt>): Result<Pczt, Error> {
    if pczts == [] then Err(NoPczts)
    else
      match FoldMerge(MergePczt, pczts)
      case None => Err(DataMismatch)
      case Some(pczt) => Ok(pczt)
  }

  /** `Combiner::combine`. */
  method Combine(pczts: seq<Pczt>) returns (r: Result<Pczt, Error>)
    ensures r == CombineAll(pczts)
  {
    if pczts == [] {
      return Err(NoPczts);
    }
    var acc := pczts[0];
    var i := 1;
    while i < |pczts|
      invariant 1 <= i <= |pczts|
      invariant FoldMerge(MergePczt, pczts[..i]) == Some(acc)
    {
      assert pczts[..i + 1][..i] == pczts[..i];
      var merged := Merge(acc, pczts[i]);
      if merged.None? {
        FoldFailureSticks(MergePczt, pczts, i + 1);
        return Err(DataMismatch);
      }
      acc := merged.value;
      i := i + 1;
    }
    assert pczts[..i] == pczts;
    return Ok(acc);
  }

  // ---------- The information order ----------

  predicate PcztLeq(a: Pczt, b: Pczt) {
    && GlobalLeq(a.global, b.global)
    && T.BundleLeq(a.transparent, b.transparent, a.global)
    && S.BundleLeq(a.sapling, b.sapling, a.global)
    && O.BundleLeq(a.orchard, b.orchard, a.global)
    && O.BundleLeq(a.ironwood, b.ironwood, a.global)
  }

  /** What the order does not see: sums and binding signature keys that do not conflict, and
      Sapling lists that do not grow on opposite sides. */
  predicate Compatible(a: Pczt, b: Pczt) {
    && S.BskCompatible(a.sapling, b.sapling) && !S.MixedGrowth(a.sapling, b.sapling)
    && O.BskCompatible(a.orchard, b.orchard)
    && O.BskCompatible(a.ironwood, b.ironwood)
  }

  /** A merge keeps every list entry, optional field and map entry of both sides, and never gives
      back a permission that either side gave up. */
  lemma MergeUpper(a: Pczt, b: Pczt)
    requires MergePczt(a, b).Some?
    ensures PcztLeq(a, MergePczt(a, b).value)
    ensures PcztLeq(b, MergePczt(a, b).value)
    ensures Compatible(a, b)
  {
    GlobalUpper(a.global, b.global);
    T.BundleUpper(a.transparent, b.transparent, a.global, b.global);
    S.BundleUpper(a.sapling, b.sapling, a.global, b.global);
    O.BundleUpper(a.orchard, b.orchard, a.global, b.global);
    O.BundleUpper(a.ironwood, b.ironwood, a.global, b.global);
  }

  /** A merge adds nothing that both sides could not agree on, and with a common extension in
      sight it fails only for the reasons in `Compatible`. */
  lemma MergeLeast(a: Pczt, b: Pczt, u: Pczt)
    requires PcztLeq(a, u) && PcztLeq(b, u)
    ensures MergePczt(a, b).Some? <==> Compatible(a, b)
    ensures MergePczt(a, b).Some? ==> PcztLeq(MergePczt(a, b).value, u)
  {
    GlobalLeast(a.global, b.global, u.global);
    var gm := MergeGlobal(a.global, b.global).value;
    T.BundleLeast(a.transparent, b.transparent, u.transparent, a.global, b.global, gm);
    S.BundleLeast(a.sapling, b.sapling, u.sapling, a.global, b.global, gm);
    O.BundleLeast(a.orchard, b.orchard, u.orchard, a.global, b.global, gm);
    O.BundleLeast(a.ironwood, b.ironwood, u.ironwood, a.global, b.global, gm);
  }

  /** Agreement, field by field: headers match, reserved bits are clear, every shorter list is on a
      modifiable side, whatever both copies hold is equal, keys and sums do not conflict, and Sapling
      lists do not grow on opposite sides. */
  predicate PcztsAgree(a: Pczt, b: Pczt) {
    && GlobalsAgree(a.global, b.global)
    && T.BundlesAgree(a.transparent, b.transparent, a.global, b.global)
    && S.BundlesAgree(a.sapling, b.sapling, a.global, b.global)
    && O.BundlesAgree(a.orchard, b.orchard, a.global, b.global)
    && O.BundlesAgree(a.ironwood, b.ironwood, a.global, b.global)
  }

  /** Two copies merge exactly when they agree, which is when some PCZT extends both of them and they
      are compatible. */
  lemma MergeSucceedsIff(a: Pczt, b: Pczt)
    ensures MergePczt(a, b).Some? <==> PcztsAgree(a, b)
    ensures MergePczt(a, b).Some? <==> (exists u :: PcztLeq(a, u) && PcztLeq(b, u)) && Compatible(a, b)
  {
    AgreementDecides(a, b);
    if MergePczt(a, b).Some? {
      MergeUpper(a, b);
    }
    if u :| PcztLeq(a, u) && PcztLeq(b, u) {
      MergeLeast(a, b, u);
    }
  }

  lemma AgreementDecides(a: Pczt, b: Pczt)
    ensures PcztsAgree(a, b) <==> MergePczt(a, b).Some?
  {
    hide T.MergeBundle, S.MergeBundle, O.MergeBundle, T.BundlesAgree, S.BundlesAgree, O.BundlesAgree;
    T.BundleSucceedsIff(a.transparent, b.transparent, a.global, b.global);
    S.BundleSucceedsIff(a.sapling, b.sapling, a.global, b.global);
    O.BundleSucceedsIff(a.orchard, b.orchard, a.global, b.global);
    O.BundleSucceedsIff(a.ironwood, b.ironwood, a.global, b.global);
  }

  lemma OrderTransitive(a: Pczt, b: Pczt, c: Pczt)
    requires PcztLeq(a, b) && PcztLeq(b, c)
    ensures PcztLeq(a, c)
  {
    GlobalTransitive(a.global, b.global, c.global);
    T.BundleTransitive(a.transparent, b.transparent, c.transparent, a.global, b.global);
    S.BundleTransitive(a.sapling, b.sapling, c.sapling, a.global, b.global);
    O.BundleTransitive(a.orchard, b.orchard, c.orchard, a.global, b.global);
    O.BundleTransitive(a.ironwood, b.ironwood, c.ironwood, a.global, b.global);
  }

  /** The same PCZT with the sums and keys of another. */
  function WithSumsOf(p: Pczt, q: Pczt): Pczt {
    p.(sapling := p.sapling.(valueSum := q.sapling.valueSum, bsk := q.sapling.bsk),
       orchard := p.orchard.(valueSum := q.orchard.valueSum, bsk := q.orchard.bsk),
       ironwood := p.ironwood.(valueSum := q.ironwood.valueSum, bsk := q.ironwood.bsk))
  }

  /** Equal in everything but the value sums and binding signature keys. */
  predicate SameInformation(p: Pczt, q: Pczt) {
    p == WithSumsOf(q, p)
  }

  lemma OrderAntisymmetric(a: Pczt, b: Pczt)
    requires PcztLeq(a, b) && PcztLeq(b, a)
    ensures SameInformation(a, b)
  {
    GlobalAntisymmetric(a.global, b.global);
    T.BundleAntisymmetric(a.transparent, b.transparent, a.global, b.global);
    S.BundleAntisymmetric(a.sapling, b.sapling, a.global, b.global);
    O.BundleAntisymmetric(a.orchard, b.orchard, a.global, b.global);
    O.BundleAntisymmetric(a.ironwood, b.ironwood, a.global, b.global);
  }

  lemma OrderReflexive(a: Pczt)
    requires a.global.ReservedBitsClear()
    ensures PcztLeq(a, a)
  {
    T.InputLaws();
    T.OutputLaws();
    S.SpendLaws();
    S.OutputLaws();
    O.ActionLaws();
  }

  lemma MergeLaws()
    ensures FoldLaws(PcztLeq, MergePczt)
  {
    forall a, b, c | PcztLeq(a, b) && PcztLeq(b, c) ensures PcztLeq(a, c) {
      OrderTransitive(a, b, c);
    }
    forall a, b | MergePczt(a, b).Some?
      ensures PcztLeq(a, MergePczt(a, b).value) && PcztLeq(b, MergePczt(a, b).value)
    {
      MergeUpper(a, b);
    }
    forall a, b, u | MergePczt(a, b).Some? && PcztLeq(a, u) && PcztLeq(b, u)
      ensures PcztLeq(MergePczt(a, b).value, u)
    {
      MergeLeast(a, b, u);
    }
  }

  // ---------- Order and grouping ----------

  /** Where a merge takes sums and keys from, when no list grows. */
  lemma MergeTakesSums(a: Pczt, b: Pczt)
    requires MergePczt(a, b).Some?
    requires |a.sapling.spends| >= |b.sapling.spends| && |a.sapling.outputs| >= |b.sapling.outputs|
    requires |a.orchard.actions| >= |b.orchard.actions| && |a.ironwood.actions| >= |b.ironwood.actions|
    ensures MergePczt(a, b).value == WithSumsOf(MergePczt(a, b).value, a)
  {
  }

  /** Merging in something already known changes nothing, not even sums or keys. */
  lemma MergeAbsorbs(a: Pczt, b: Pczt)
    requires a.global.ReservedBitsClear()
    requires PcztLeq(b, a) && Compatible(a, b)
    ensures MergePczt(a, b) == Some(a)
  {
    OrderReflexive(a);
    MergeLeast(a, b, a);
    MergeUpper(a, b);
    OrderAntisymmetric(a, MergePczt(a, b).value);
    MergeTakesSums(a, b);
  }

  /** A copy merges with itself exactly when its reserved flag bits are clear, and to itself. */
  lemma MergeIdempotent(a: Pczt)
    ensures MergePczt(a, a) == (if a.global.ReservedBitsClear() then Some(a) else None)
  {
    if a.global.ReservedBitsClear() {
      OrderReflexive(a);
      MergeAbsorbs(a, a);
    }
  }

  /** Failure never depends on which copy comes first, and neither does the result, except that
      `bsk` and, between lists of equal lengths, the value sum are taken from the first. */
  lemma MergeCommutes(a: Pczt, b: Pczt)
    ensures MergePczt(a, b).Some? <==> MergePczt(b, a).Some?
    ensures MergePczt(a, b) == MergePczt(b, a) <==>
            (|| !PcztsAgree(a, b)
             || (&& S.Symmetric(a.sapling, b.sapling)
                 && O.Symmetric(a.orchard, b.orchard)
                 && O.Symmetric(a.ironwood, b.ironwood)))
  {
    AgreementDecides(a, b);
    T.MergeCommutes(a.transparent, b.transparent, a.global, b.global);
    GlobalCommutes(a.global, b.global);
    S.MergeCommutes(a.sapling, b.sapling, a.global, b.global);
    O.MergeCommutes(a.orchard, b.orchard, a.global, b.global);
    O.MergeCommutes(a.ironwood, b.ironwood, a.global, b.global);
  }

  /** At its smallest: copies that differ only in a Sapling sum merge, and each order keeps its own first. */
  lemma EqualLengthSumsAreNotCompared(p: Pczt, x: int, y: int)
    requires p.global.ReservedBitsClear() && p.sapling.bsk.None?
    ensures
      var a, b := p.(sapling := p.sapling.(valueSum := x)), p.(sapling := p.sapling.(valueSum := y));
      MergePczt(a, b) == Some(a) && MergePczt(b, a) == Some(b)
  {
    var a, b := p.(sapling := p.sapling.(valueSum := x)), p.(sapling := p.sapling.(valueSum := y));
    OrderReflexive(a);
    OrderReflexive(b);
    MergeAbsorbs(a, b);
    MergeAbsorbs(b, a);
  }

  /** The other asymmetry: a `bsk` is kept by the copy that has it and not taken over by the other. */
  lemma KeysAreNotTakenOver(p: Pczt, bsk: Bytes)
    requires p.global.ReservedBitsClear() && p.orchard.bsk.None?
    ensures
      var a := p.(orchard := p.orchard.(bsk := Some(bsk)));
      MergePczt(a, p) == Some(a) && MergePczt(p, a) == Some(p)
  {
    var a := p.(orchard := p.orchard.(bsk := Some(bsk)));
    OrderReflexive(a);
    OrderReflexive(p);
    MergeAbsorbs(a, p);
    MergeAbsorbs(p, a);
  }

  /** Whenever both groupings of three copies succeed they give the very same PCZT: even sums and
      keys come from the same copy. */
  lemma MergeGroupingAgrees(a: Pczt, b: Pczt, c: Pczt)
    requires MergePczt(a, b).Some? && MergePczt(MergePczt(a, b).value, c).Some?
    requires MergePczt(b, c).Some? && MergePczt(a, MergePczt(b, c).value).Some?
    ensures MergePczt(MergePczt(a, b).value, c) == MergePczt(a, MergePczt(b, c).value)
  {
    var ab, bc := MergePczt(a, b).value, MergePczt(b, c).value;
    var left, right := MergePczt(ab, c).value, MergePczt(a, bc).value;
    assert SameInformation(left, right) by {
      MergeLaws();
      GroupingAgrees(PcztLeq, MergePczt, a, b, c);
      OrderAntisymmetric(left, right);
    }
    S.GroupingTakesSameSum(a.sapling, b.sapling, c.sapling, a.global, b.global, c.global, ab.global, bc.global);
    O.GroupingTakesSameSum(a.orchard, b.orchard, c.orchard, a.global, b.global, c.global, ab.global, bc.global);
    O.GroupingTakesSameSum(a.ironwood, b.ironwood, c.ironwood, a.global, b.global, c.global, ab.global, bc.global);
  }

  /** When one grouping succeeds, the other does exactly when the pair it starts with is compatible. */
  lemma RegroupingSucceedsIff(a: Pczt, b: Pczt, c: Pczt)
    requires MergePczt(a, b).Some? && MergePczt(MergePczt(a, b).value, c).Some?
    ensures MergePczt(b, c).Some? && MergePczt(a, MergePczt(b, c).value).Some? <==> Compatible(b, c)
    ensures MergePczt(b, c).Some? <==> Compatible(b, c)
  {
    var ab := MergePczt(a, b).value;
    var left := MergePczt(ab, c).value;
    MergeUpper(a, b);
    MergeUpper(ab, c);
    OrderTransitive(a, ab, left);
    OrderTransitive(b, ab, left);
    MergeLeast(b, c, left);
    if Compatible(b, c) {
      MergeLeast(a, MergePczt(b, c).value, left);
      CompatibleRegroups(a, b, c);
    }
  }

  lemma CompatibleRegroups(a: Pczt, b: Pczt, c: Pczt)
    requires MergePczt(a, b).Some? && MergePczt(b, c).Some?
    requires Compatible(MergePczt(a, b).value, c)
    ensures Compatible(a, MergePczt(b, c).value)
  {
    hide T.MergeBundle, S.MergeBundle, O.MergeBundle, S.BskCompatible, S.MixedGrowth, O.BskCompatible;
    S.RulesRegroup(a.sapling, b.sapling, c.sapling, a.global, b.global, c.global);
    O.RulesRegroup(a.orchard, b.orchard, c.orchard, a.global, b.global, c.global);
    O.RulesRegroup(a.ironwood, b.ironwood, c.ironwood, a.global, b.global, c.global);
  }

  /** A copy extended by one more Sapling spend, output, or both. */
  function Extended(p: Pczt, spends: seq<S.Spend>, outputs: seq<S.Output>, valueSum: int): Pczt {
    p.(sapling := p.sapling.(spends := p.sapling.spends + spends, outputs := p.sapling.outputs + outputs,
                             valueSum := valueSum))
  }

  lemma ExtendedLeq(p: Pczt, spends: seq<S.Spend>, outputs: seq<S.Output>, keep: nat, keep': nat, x: int, y: int)
    requires p.global.ReservedBitsClear() && p.global.ShieldedModifiable()
    requires keep <= |spends| && keep' <= |outputs|
    ensures PcztLeq(Extended(p, spends[..keep], outputs[..keep'], x), Extended(p, spends, outputs, y))
  {
    OrderReflexive(p);
    S.SpendLaws();
    S.OutputLaws();
  }

  /** Success itself is not associative: let one party add a Sapling spend and another an output.
      A copy that holds both absorbs either of theirs, but theirs cannot be merged directly. */
  lemma OppositeGrowthNeedsJointCopy(p: Pczt, spend: S.Spend, output: S.Output, x: int, y: int, z: int)
    requires p.global.ReservedBitsClear() && p.global.ShieldedModifiable() && p.sapling.bsk.None?
    ensures
      var a, b, c := Extended(p, [spend], [output], x), Extended(p, [spend], [], y), Extended(p, [], [output], z);
      MergePczt(a, b) == Some(a) && MergePczt(a, c) == Some(a) && MergePczt(b, c).None?
  {
    var a, b, c := Extended(p, [spend], [output], x), Extended(p, [spend], [], y), Extended(p, [], [output], z);
    assert PcztLeq(b, a) by {
      ExtendedLeq(p, [spend], [output], 1, 0, y, x);
      assert [spend][..1] == [spend] && [output][..0] == [];
    }
    assert PcztLeq(c, a) by {
      ExtendedLeq(p, [spend], [output], 0, 1, z, x);
      assert [spend][..0] == [] && [output][..1] == [output];
    }
    MergeAbsorbs(a, b);
    MergeAbsorbs(a, c);
    assert S.MixedGrowth(b.sapling, c.sapling);
  }

  /** So one order of combining the three succeeds, and another fails. */
  lemma CombineOrderMatters(p: Pczt, spend: S.Spend, output: S.Output, x: int, y: int, z: int)
    requires p.global.ReservedBitsClear() && p.global.ShieldedModifiable() && p.sapling.bsk.None?
    ensures
      var a, b, c := Extended(p, [spend], [output], x), Extended(p, [spend], [], y), Extended(p, [], [output], z);
      multiset([b, c, a]) == multiset([a, b, c]) && CombineAll([a, b, c]) == Ok(a) && CombineAll([b, c, a]).Err?
  {
    hide MergePczt, Extended;
    var a, b, c := Extended(p, [spend], [output], x), Extended(p, [spend], [], y), Extended(p, [], [output], z);
    OppositeGrowthNeedsJointCopy(p, spend, output, x, y, z);
    FoldThree(MergePczt, a, b, c);
    FoldThree(MergePczt, b, c, a);
  }

  // ---------- When every order succeeds ----------

  /** What agrees with two copies agrees with their merge. */
  lemma AgreementCoherent(a: Pczt, b: Pczt, c: Pczt)
    requires MergePczt(a, b).Some? && PcztsAgree(a, c) && PcztsAgree(b, c)
    ensures PcztsAgree(MergePczt(a, b).value, c)
  {
    hide T.MergeBundle, S.MergeBundle, O.MergeBundle, T.BundlesAgree, S.BundlesAgree, O.BundlesAgree;
    var gm := MergeGlobal(a.global, b.global).value;
    T.BundleCoherent(a.transparent, b.transparent, c.transparent, a.global, b.global, c.global, gm);
    S.BundleCoherent(a.sapling, b.sapling, c.sapling, a.global, b.global, c.global, gm);
    O.BundleCoherent(a.orchard, b.orchard, c.orchard, a.global, b.global, c.global, gm);
    O.BundleCoherent(a.ironwood, b.ironwood, c.ironwood, a.global, b.global, c.global, gm);
    GlobalUpper(a.global, b.global);
  }

  lemma AgreementLaws()
    ensures Decides(PcztsAgree, MergePczt) && Coherent(PcztsAgree, MergePczt)
    ensures forall a, b :: PcztsAgree(a, b) ==> PcztsAgree(b, a)
  {
    hide PcztsAgree, MergePczt;
    forall a, b ensures PcztsAgree(a, b) <==> MergePczt(a, b).Some? {
      AgreementDecides(a, b);
    }
    forall a, b | PcztsAgree(a, b) ensures PcztsAgree(b, a) {
      MergeCommutes(a, b);
    }
    forall a, b, c | MergePczt(a, b).Some? && PcztsAgree(a, c) && PcztsAgree(b, c)
      ensures PcztsAgree(MergePczt(a, b).value, c)
    {
      AgreementCoherent(a, b, c);
    }
  }

  /** Every order of combining the copies succeeds exactly when any two of them merge. */
  lemma EveryOrderCombinesIff(ps: seq<Pczt>)
    requires |ps| >= 2
    ensures (forall qs :: multiset(qs) == multiset(ps) ==> CombineAll(qs).Ok?) <==>
            (forall i, j :: 0 <= i < j < |ps| ==> MergePczt(ps[i], ps[j]).Some?)
    ensures (forall i, j :: 0 <= i < j < |ps| ==> MergePczt(ps[i], ps[j]).Some?) <==> PairwiseAgree(PcztsAgree, ps)
  {
    hide PcztsAgree, MergePczt;
    AgreementLaws();
    EveryOrderFoldsIff(PcztsAgree, MergePczt, ps);
    assert PairwiseAgree(PcztsAgree, ps) <==> forall i, j :: 0 <= i < j < |ps| ==> MergePczt(ps[i], ps[j]).Some?;
    if forall qs :: multiset(qs) == multiset(ps) ==> CombineAll(qs).Ok? {
      forall qs | multiset(qs) == multiset(ps) ensures qs != [] && FoldMerge(MergePczt, qs).Some? {
        assert CombineAll(qs).Ok?;
      }
    }
    if PairwiseAgree(PcztsAgree, ps) {
      forall qs | multiset(qs) == multiset(ps) ensures CombineAll(qs).Ok? {
        assert qs != [] && FoldMerge(MergePczt, qs).Some?;
      }
    }
  }

  /** Two orders of combining the same copies that both succeed agree on all information; if any two of
      the copies agree, both do succeed. */
  lemma CombineOrderAgrees(ps: seq<Pczt>, qs: seq<Pczt>)
    requires multiset(ps) == multiset(qs)
    ensures ps != [] && PairwiseAgree(PcztsAgree, ps) ==> CombineAll(ps).Ok? && CombineAll(qs).Ok?
    ensures CombineAll(ps).Ok? && CombineAll(qs).Ok? ==> SameInformation(CombineAll(ps).value, CombineAll(qs).value)
  {
    hide PcztsAgree, MergePczt, PcztLeq;
    SameLength(ps, qs);
    if |ps| == 1 {
      assert qs[0] in multiset(ps);
    } else if |ps| > 1 {
      if PairwiseAgree(PcztsAgree, ps) {
        EveryOrderCombinesIff(ps);
      }
      if CombineAll(ps).Ok? && CombineAll(qs).Ok? {
        MergeLaws();
        FoldOrderAgrees(PcztLeq, MergePczt, ps, qs);
        OrderAntisymmetric(CombineAll(ps).value, CombineAll(qs).value);
      }
    }
  }

  // ---------- When a given order succeeds ----------

  function Lead(leader: Pczt, next: Pczt): Pczt {
    leader.(sapling := S.Lead(leader.sapling, next.sapling),
            orchard := O.Lead(leader.orchard, next.orchard),
            ironwood := O.Lead(leader.ironwood, next.ironwood))
  }

  /** For each pool the first longest bundle among the copies, with the key of the first copy. */
  function Leader(ps: seq<Pczt>): Pczt
    requires |ps| > 0
  {
    if |ps| == 1 then ps[0] else Lead(Leader(ps[..|ps| - 1]), ps[|ps| - 1])
  }

  /** Each copy is compatible with the leader of those before it. */
  ghost predicate CompatibleInTurn(ps: seq<Pczt>) {
    forall k :: 0 < k < |ps| ==> Compatible(Leader(ps[..k]), ps[k])
  }

  predicate SameShapes(a: Pczt, b: Pczt) {
    && S.SameShape(a.sapling, b.sapling)
    && O.SameShape(a.orchard, b.orchard)
    && O.SameShape(a.ironwood, b.ironwood)
  }

  lemma MergeHasLeaderShape(leader: Pczt, a: Pczt, b: Pczt)
    requires SameShapes(leader, a) && MergePczt(a, b).Some?
    ensures SameShapes(Lead(leader, b), MergePczt(a, b).value)
  {
    hide S.MergeBundle, O.MergeBundle, T.MergeBundle, S.SameShape, O.SameShape, S.Lead, O.Lead;
    S.MergeHasLeaderShape(leader.sapling, a.sapling, b.sapling, a.global, b.global);
    O.MergeHasLeaderShape(leader.orchard, a.orchard, b.orchard, a.global, b.global);
    O.MergeHasLeaderShape(leader.ironwood, a.ironwood, b.ironwood, a.global, b.global);
  }

  lemma ShapeDecidesCompatible(leader: Pczt, a: Pczt, b: Pczt)
    requires SameShapes(leader, a)
    ensures Compatible(leader, b) <==> Compatible(a, b)
  {
  }

  /** The result of combining has the lengths, sums and keys of the leader. */
  lemma {:induction false} FoldHasLeaderShape(ps: seq<Pczt>)
    requires |ps| > 0 && FoldMerge(MergePczt, ps).Some?
    ensures SameShapes(Leader(ps), FoldMerge(MergePczt, ps).value)
  {
    if |ps| > 1 {
      hide Lead, MergePczt, SameShapes;
      var front := ps[..|ps| - 1];
      FoldHasLeaderShape(front);
      MergeHasLeaderShape(Leader(front), FoldMerge(MergePczt, front).value, ps[|ps| - 1]);
    }
  }

  lemma CompatibleInTurnStep(ps: seq<Pczt>)
    requires |ps| > 1
    ensures
      var front, last := ps[..|ps| - 1], ps[|ps| - 1];
      CompatibleInTurn(ps) <==> CompatibleInTurn(front) && Compatible(Leader(front), last)
  {
    hide Compatible, Leader;
    var n := |ps| - 1;
    var front := ps[..n];
    forall k | 0 < k < n ensures front[..k] == ps[..k] && front[k] == ps[k] {
    }
    if CompatibleInTurn(front) && Compatible(Leader(front), ps[n]) {
      forall k | 0 < k < |ps| ensures Compatible(Leader(ps[..k]), ps[k]) {
        assert k < n ==> Compatible(Leader(front[..k]), front[k]);
      }
    }
    if CompatibleInTurn(ps) {
      forall k | 0 < k < n ensures Compatible(Leader(front[..k]), front[k]) {
        assert Compatible(Leader(ps[..k]), ps[k]);
      }
    }
  }

  /** Under a common extension, one more copy merges exactly when it is compatible with the leader. */
  lemma NextCopyMergesIff(front: seq<Pczt>, last: Pczt, u: Pczt)
    requires |front| > 0 && IsUpperBound(PcztLeq, front, u) && PcztLeq(last, u)
    requires FoldMerge(MergePczt, front).Some?
    ensures MergePczt(FoldMerge(MergePczt, front).value, last).Some? <==> Compatible(Leader(front), last)
  {
    hide MergePczt, PcztLeq, Compatible, Leader;
    var acc := FoldMerge(MergePczt, front).value;
    assert PcztLeq(acc, u) by {
      MergeLaws();
      FoldLeast(PcztLeq, MergePczt, front, u);
    }
    MergeLeast(acc, last, u);
    FoldHasLeaderShape(front);
    ShapeDecidesCompatible(Leader(front), acc, last);
  }

  lemma {:induction false} BoundedCopiesCombineIff(ps: seq<Pczt>, u: Pczt)
    requires |ps| > 0 && IsUpperBound(PcztLeq, ps, u)
    ensures FoldMerge(MergePczt, ps).Some? <==> CompatibleInTurn(ps)
  {
    if |ps| > 1 {
      hide MergePczt, PcztLeq, Compatible, Leader, CompatibleInTurn;
      var front := ps[..|ps| - 1];
      assert forall i :: 0 <= i < |front| ==> front[i] == ps[i];
      BoundedCopiesCombineIff(front, u);
      CompatibleInTurnStep(ps);
      if FoldMerge(MergePczt, front).Some? {
        NextCopyMergesIff(front, ps[|ps| - 1], u);
      }
    }
  }

  /** A given order of combining succeeds exactly when some PCZT extends every copy and each copy is
      compatible with the leader of those before it. */
  lemma GivenOrderCombinesIff(ps: seq<Pczt>)
    requires |ps| >= 2
    ensures CombineAll(ps).Ok? <==> (exists u :: IsUpperBound(PcztLeq, ps, u)) && CompatibleInTurn(ps)
  {
    hide MergePczt, PcztLeq, CompatibleInTurn;
    if CombineAll(ps).Ok? {
      MergeLaws();
      FoldUpper(PcztLeq, MergePczt, ps);
      BoundedCopiesCombineIff(ps, CombineAll(ps).value);
    }
    if u :| IsUpperBound(PcztLeq, ps, u) {
      BoundedCopiesCombineIff(ps, u);
    }
  }

  // ---------- Sums and keys ----------

  /** What determines value in each shielded pool, and the binding signature keys in use. */
  datatype Context = Context(
    sapling: S.Valuation, orchard: O.ActionEffects -> int, ironwood: O.ActionEffects -> int,
    saplingBsk: Option<Bytes>, orchardBsk: Option<Bytes>, ironwoodBsk: Option<Bytes>)

  /** Every recorded sum is the one its lists determine. */
  predicate SumsConsistent(ctx: Context, p: Pczt) {
    && S.SumConsistent(ctx.sapling, p.sapling)
    && O.SumConsistent(ctx.orchard, p.orchard)
    && O.SumConsistent(ctx.ironwood, p.ironwood)
  }

  /** Also the keys are the given ones, and no zero sum is spelled as negative. */
  predicate Settled(ctx: Context, p: Pczt) {
    && SumsConsistent(ctx, p)
    && p.sapling.bsk == ctx.saplingBsk && p.orchard.bsk == ctx.orchardBsk && p.ironwood.bsk == ctx.ironwoodBsk
    && p.orchard.valueSum != O.ValueSum(0, true) && p.ironwood.valueSum != O.ValueSum(0, true)
  }

  lemma MergeKeepsSums(ctx: Context, a: Pczt, b: Pczt)
    requires SumsConsistent(ctx, a) && SumsConsistent(ctx, b)
    requires MergePczt(a, b).Some?
    ensures SumsConsistent(ctx, MergePczt(a, b).value)
  {
    S.MergeKeepsSum(ctx.sapling, a.sapling, b.sapling, a.global, b.global);
    O.MergeKeepsSum(ctx.orchard, a.orchard, b.orchard, a.global, b.global);
    O.MergeKeepsSum(ctx.ironwood, a.ironwood, b.ironwood, a.global, b.global);
  }

  /** Whatever order succeeds, the combined PCZT records the sums its own lists determine. */
  lemma CombineKeepsSums(ctx: Context, ps: seq<Pczt>)
    requires forall i :: 0 <= i < |ps| ==> SumsConsistent(ctx, ps[i])
    requires CombineAll(ps).Ok?
    ensures SumsConsistent(ctx, CombineAll(ps).value)
  {
    forall a, b | SumsConsistent(ctx, a) && SumsConsistent(ctx, b) && MergePczt(a, b).Some?
      ensures SumsConsistent(ctx, MergePczt(a, b).value)
    {
      MergeKeepsSums(ctx, a, b);
    }
    FoldInvariant(MergePczt, p => SumsConsistent(ctx, p), ps);
  }

  lemma MergeSettles(ctx: Context, a: Pczt, b: Pczt)
    requires Settled(ctx, a) && Settled(ctx, b) && MergePczt(a, b).Some?
    ensures Settled(ctx, MergePczt(a, b).value)
  {
    MergeKeepsSums(ctx, a, b);
  }

  lemma CombineSettles(ctx: Context, ps: seq<Pczt>)
    requires forall i :: 0 <= i < |ps| ==> Settled(ctx, ps[i])
    requires CombineAll(ps).Ok?
    ensures Settled(ctx, CombineAll(ps).value)
  {
    hide Settled, MergePczt;
    forall a, b | Settled(ctx, a) && Settled(ctx, b) && MergePczt(a, b).Some?
      ensures Settled(ctx, MergePczt(a, b).value)
    {
      MergeSettles(ctx, a, b);
    }
    FoldInvariant(MergePczt, p => Settled(ctx, p), ps);
  }

  lemma SettledDetermined(ctx: Context, p: Pczt, q: Pczt)
    requires Settled(ctx, p) && Settled(ctx, q) && SameInformation(p, q)
    ensures p == q
  {
  }

  /** When the copies carry correct sums and the same keys and any two of them agree, every order of
      combining them succeeds and gives the very same PCZT; without that, every order that succeeds. */
  lemma CombineOrderExact(ctx: Context, ps: seq<Pczt>, qs: seq<Pczt>)
    requires multiset(ps) == multiset(qs)
    requires forall i :: 0 <= i < |ps| ==> Settled(ctx, ps[i])
    ensures ps != [] && PairwiseAgree(PcztsAgree, ps) ==> CombineAll(ps).Ok? && CombineAll(qs) == CombineAll(ps)
    ensures CombineAll(ps).Ok? && CombineAll(qs).Ok? ==> CombineAll(ps) == CombineAll(qs)
  {
    hide PcztsAgree, CombineAll, Settled, SameInformation;
    CombineOrderAgrees(ps, qs);
    if CombineAll(ps).Ok? && CombineAll(qs).Ok? {
      forall i | 0 <= i < |qs| ensures Settled(ctx, qs[i]) {
        var j := SameElements(ps, qs, i);
      }
      CombineSettles(ctx, ps);
      CombineSettles(ctx, qs);
      SettledDetermined(ctx, CombineAll(ps).value, CombineAll(qs).value);
    }
  }
}
