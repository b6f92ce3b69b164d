/** The Sapling bundle of a PCZT, its merge, and the value sum it carries. */
module Sapling {
  import opened Wrappers
  import opened PartialJoin
  import opened Common

  datatype SpendEffects = SpendEffects(cv: Bytes, nullifier: Bytes, rk: Bytes)

  datatype OutputEffects = OutputEffects(
    cv: Bytes, cmu: Bytes, ephemeralKey: Bytes, encCiphertext: Bytes, outCiphertext: Bytes)

  datatype Spend = Spend(
    cv: Bytes,
    nullifier: Bytes,
    rk: Bytes,
    zkproof: Option<Bytes>,
    spendAuthSig: Option<Bytes>,
    recipient: Option<Bytes>,
    value: Option<nat>,
    rcm: Option<Bytes>,
    rseed: Option<Bytes>,
    rcv: Option<Bytes>,
    proofGenerationKey: Option<(Bytes, Bytes)>,
    witnessPath: Option<(nat, seq<Bytes>)>,
    alpha: Option<Bytes>,
    zip32Derivation: Option<Zip32Derivation>,
    dummyAsk: Option<Bytes>,
    proprietary: Proprietary)
  {
    /** The effecting data, which every copy must agree on. */
    function Effects(): SpendEffects {
      SpendEffects(cv, nullifier, rk)
    }

    predicate SameEffects(other: Spend) {
      Effects() == other.Effects()
    }
  }

  datatype Output = Output(
    cv: Bytes,
    cmu: Bytes,
    ephemeralKey: Bytes,
    encCiphertext: Bytes,
    outCiphertext: Bytes,
    zkproof: Option<Bytes>,
    recipient: Option<Bytes>,
    value: Option<nat>,
    rseed: Option<Bytes>,
    rcv: Option<Bytes>,
    ock: Option<Bytes>,
    zip32Derivation: Option<Zip32Derivation>,
    userAddress: Option<string>,
    proprietary: Proprietary)
  {
    /** The effecting data, which every copy must agree on. */
    function Effects(): OutputEffects {
      OutputEffects(cv, cmu, ephemeralKey, encCiphertext, outCiphertext)
    }

    predicate SameEffects(other: Output) {
      Effects() == other.Effects()
    }
  }

  datatype Bundle = Bundle(
    spends: seq<Spend>,
    outputs: seq<Output>,
    valueSum: int,
    anchor: Option<Bytes>,
    bsk: Option<Bytes>)

  const EMPTY_BUNDLE := Bundle([], [], 0, None, None)

  predicate SpendLeq(a: Spend, b: Spend) {
    && a.SameEffects(b)
    && OptionLeq(a.zkproof, b.zkproof)
    && OptionLeq(a.spendAuthSig, b.spendAuthSig)
    && OptionLeq(a.recipient, b.recipient)
    && OptionLeq(a.value, b.value)
    && OptionLeq(a.rcm, b.rcm)
    && OptionLeq(a.rseed, b.rseed)
    && OptionLeq(a.rcv, b.rcv)
    && OptionLeq(a.proofGenerationKey, b.proofGenerationKey)
    && OptionLeq(a.witnessPath, b.witnessPath)
    && OptionLeq(a.alpha, b.alpha)
    && OptionLeq(a.zip32Derivation, b.zip32Derivation)
    && OptionLeq(a.dummyAsk, b.dummyAsk)
    && MapLeq(a.proprietary, b.proprietary)
  }

  predicate OutputLeq(a: Output, b: Output) {
    && a.SameEffects(b)
    && OptionLeq(a.zkproof, b.zkproof)
    && OptionLeq(a.recipient, b.recipient)
    && OptionLeq(a.value, b.value)
    && OptionLeq(a.rseed, b.rseed)
    && OptionLeq(a.rcv, b.rcv)
    && OptionLeq(a.ock, b.ock)
    && OptionLeq(a.zip32Derivation, b.zip32Derivation)
    && OptionLeq(a.userAddress, b.userAddress)
    && MapLeq(a.proprietary, b.proprietary)
  }

  function MergeSpend(lhs: Spend, rhs: Spend): Option<Spend> {
    var zkproof := MergeOptional(lhs.zkproof, rhs.zkproof);
    var spendAuthSig := MergeOptional(lhs.spendAuthSig, rhs.spendAuthSig);
    var recipient := MergeOptional(lhs.recipient, rhs.recipient);
    var value := MergeOptional(lhs.value, rhs.value);
    var rcm := MergeOptional(lhs.rcm, rhs.rcm);
    var rseed := MergeOptional(lhs.rseed, rhs.rseed);
    var rcv := MergeOptional(lhs.rcv, rhs.rcv);
    var proofGenerationKey := MergeOptional(lhs.proofGenerationKey, rhs.proofGenerationKey);
    var witnessPath := MergeOptional(lhs.witnessPath, rhs.witnessPath);
    var alpha := MergeOptional(lhs.alpha, rhs.alpha);
    var zip32Derivation := MergeOptional(lhs.zip32Derivation, rhs.zip32Derivation);
    var dummyAsk := MergeOptional(lhs.dummyAsk, rhs.dummyAsk);
    var proprietary := MergeMap(lhs.proprietary, rhs.proprietary);
    if && lhs.SameEffects(rhs)
       && zkproof.Some? && spendAuthSig.Some? && recipient.Some? && value.Some?
       && rcm.Some? && rseed.Some? && rcv.Some? && proofGenerationKey.Some?
       && witnessPath.Some? && alpha.Some? && zip32Derivation.Some? && dummyAsk.Some?
       && proprietary.Some?
    then
      Some(Spend(lhs.cv, lhs.nullifier, lhs.rk, zkproof.value, spendAuthSig.value, recipient.value,
                 value.value, rcm.value, rseed.value, rcv.value, proofGenerationKey.value,
                 witnessPath.value, alpha.value, zip32Derivation.value, dummyAsk.value,
                 proprietary.value))
    else None
  }

  function MergeOutput(lhs: Output, rhs: Output): Option<Output> {
    var zkproof := MergeOptional(lhs.zkproof, rhs.zkproof);
    var recipient := MergeOptional(lhs.recipient, rhs.recipient);
    var value := MergeOptional(lhs.value, rhs.value);
    var rseed := MergeOptional(lhs.rseed, rhs.rseed);
    var rcv := MergeOptional(lhs.rcv, rhs.rcv);
    var ock := MergeOptional(lhs.ock, rhs.ock);
    var zip32Derivation := MergeOptional(lhs.zip32Derivation, rhs.zip32Derivation);
    var userAddress := MergeOptional(lhs.userAddress, rhs.userAddress);
    var proprietary := MergeMap(lhs.proprietary, rhs.proprietary);
    if && lhs.SameEffects(rhs)
       && zkproof.Some? && recipient.Some? && value.Some? && rseed.Some?
       && rcv.Some? && ock.Some? && zip32Derivation.Some? && userAddress.Some?
       && proprietary.Some?
    then
      Some(Output(lhs.cv, lhs.cmu, lhs.ephemeralKey, lhs.encCiphertext, lhs.outCiphertext,
                  zkproof.value, recipient.value, value.value, rseed.value, rcv.value, ock.value,
                  zip32Derivation.value, userAddress.value, proprietary.value))
    else None
  }

  lemma SpendAntisymmetric(a: Spend, b: Spend)
    requires SpendLeq(a, b) && SpendLeq(b, a)
    ensures a == b
  {
    assert a.proprietary == b.proprietary;
  }

  lemma SpendUpper(a: Spend, b: Spend)
    requires MergeSpend(a, b).Some?
    ensures SpendLeq(a, MergeSpend(a, b).value) && SpendLeq(b, MergeSpend(a, b).value)
  {
  }

  lemma SpendLeast(a: Spend, b: Spend, u: Spend)
    requires SpendLeq(a, u) && SpendLeq(b, u)
    ensures MergeSpend(a, b).Some? && SpendLeq(MergeSpend(a, b).value, u)
  {
    OptionLeast(a.zkproof, b.zkproof, u.zkproof);
    OptionLeast(a.spendAuthSig, b.spendAuthSig, u.spendAuthSig);
    OptionLeast(a.recipient, b.recipient, u.recipient);
    OptionLeast(a.value, b.value, u.value);
    OptionLeast(a.rcm, b.rcm, u.rcm);
    OptionLeast(a.rseed, b.rseed, u.rseed);
    OptionLeast(a.rcv, b.rcv, u.rcv);
    OptionLeast(a.proofGenerationKey, b.proofGenerationKey, u.proofGenerationKey);
    OptionLeast(a.witnessPath, b.witnessPath, u.witnessPath);
    OptionLeast(a.alpha, b.alpha, u.alpha);
    OptionLeast(a.zip32Derivation, b.zip32Derivation, u.zip32Derivation);
    OptionLeast(a.dummyAsk, b.dummyAsk, u.dummyAsk);
    MapLeast(a.proprietary, b.proprietary, u.proprietary);
  }

  lemma SpendTransitive(a: Spend, b: Spend, c: Spend)
    requires SpendLeq(a, b) && SpendLeq(b, c)
    ensures SpendLeq(a, c)
  {
  }

  lemma SpendLaws()
    ensures JoinLaws(SpendLeq, MergeSpend)
  {
    forall a: Spend, b: Spend | SpendLeq(a, b) && SpendLeq(b, a) ensures a == b {
      SpendAntisymmetric(a, b);
    }
    forall a: Spend, b: Spend, c: Spend | SpendLeq(a, b) && SpendLeq(b, c) ensures SpendLeq(a, c) {
      SpendTransitive(a, b, c);
    }
    forall a: Spend, b: Spend | MergeSpend(a, b).Some?
      ensures SpendLeq(a, MergeSpend(a, b).value) && SpendLeq(b, MergeSpend(a, b).value)
    {
      SpendUpper(a, b);
    }
    forall a: Spend, b: Spend, u: Spend | SpendLeq(a, u) && SpendLeq(b, u)
      ensures MergeSpend(a, b).Some? && SpendLeq(MergeSpend(a, b).value, u)
    {
      SpendLeast(a, b, u);
    }
  }

  lemma OutputAntisymmetric(a: Output, b: Output)
    requires OutputLeq(a, b) && OutputLeq(b, a)
    ensures a == b
  {
    assert a.proprietary == b.proprietary;
  }

  lemma OutputUpper(a: Output, b: Output)
    requires MergeOutput(a, b).Some?
    ensures OutputLeq(a, MergeOutput(a, b).value) && OutputLeq(b, MergeOutput(a, b).value)
  {
  }

  lemma OutputLeast(a: Output, b: Output, u: Output)
    requires OutputLeq(a, u) && OutputLeq(b, u)
    ensures MergeOutput(a, b).Some? && OutputLeq(MergeOutput(a, b).value, u)
  {
    OptionLeast(a.zkproof, b.zkproof, u.zkproof);
    OptionLeast(a.recipient, b.recipient, u.recipient);
    OptionLeast(a.value, b.value, u.value);
    OptionLeast(a.rseed, b.rseed, u.rseed);
    OptionLeast(a.rcv, b.rcv, u.rcv);
    OptionLeast(a.ock, b.ock, u.ock);
    OptionLeast(a.zip32Derivation, b.zip32Derivation, u.zip32Derivation);
    OptionLeast(a.userAddress, b.userAddress, u.userAddress);
    MapLeast(a.proprietary, b.proprietary, u.proprietary);
  }

  lemma OutputTransitive(a: Output, b: Output, c: Output)
    requires OutputLeq(a, b) && OutputLeq(b, c)
    ensures OutputLeq(a, c)
  {
  }

  lemma OutputLaws()
    ensures JoinLaws(OutputLeq, MergeOutput)
  {
    forall a: Output, b: Output | OutputLeq(a, b) && OutputLeq(b, a) ensures a == b {
      OutputAntisymmetric(a, b);
    }
    forall a: Output, b: Output, c: Output | OutputLeq(a, b) && OutputLeq(b, c) ensures OutputLeq(a, c) {
      OutputTransitive(a, b, c);
    }
    forall a: Output, b: Output | MergeOutput(a, b).Some?
      ensures OutputLeq(a, MergeOutput(a, b).value) && OutputLeq(b, MergeOutput(a, b).value)
    {
      OutputUpper(a, b);
    }
    forall a: Output, b: Output, u: Output | OutputLeq(a, u) && OutputLeq(b, u)
      ensures MergeOutput(a, b).Some? && OutputLeq(MergeOutput(a, b).value, u)
    {
      OutputLeast(a, b, u);
    }
  }

  /** The information order on bundles. It says nothing about `valueSum` and `bsk`, which the merge
      does not treat as information to be joined. */
  predicate BundleLeq(a: Bundle, b: Bundle, aGlobal: Global) {
    && ListLeq(SpendLeq, aGlobal.ShieldedModifiable(), a.spends, b.spends)
    && ListLeq(OutputLeq, aGlobal.ShieldedModifiable(), a.outputs, b.outputs)
    && OptionLeq(a.anchor, b.anchor)
  }

  predicate SameLengths(a: Bundle, b: Bundle) {
    |a.spends| == |b.spends| && |a.outputs| == |b.outputs|
  }

  /** Once the IO Finalizer has run on either side, nothing may be added and the sums must match. */
  predicate BskCompatible(a: Bundle, b: Bundle) {
    && (a.bsk.Some? && b.bsk.Some? ==> a.bsk == b.bsk)
    && (a.bsk.Some? || b.bsk.Some? ==> SameLengths(a, b) && a.valueSum == b.valueSum)
  }

  /** One side has more spends and the other more outputs, so that neither value sum is right. */
  predicate MixedGrowth(a: Bundle, b: Bundle) {
    || (|a.spends| < |b.spends| && |a.outputs| > |b.outputs|)
    || (|a.spends| > |b.spends| && |a.outputs| < |b.outputs|)
  }

  /** The merged bundle, once the lists have been merged. */
  function Assemble(a: Bundle, b: Bundle, spends: Option<seq<Spend>>, outputs: Option<seq<Output>>): Option<Bundle> {
    var anchor := MergeOptional(a.anchor, b.anchor);
    var valueSum :=
      if |a.spends| < |b.spends| || |a.outputs| < |b.outputs| then b.valueSum else a.valueSum;
    if BskCompatible(a, b) && !MixedGrowth(a, b) && spends.Some? && outputs.Some? && anchor.Some?
    then Some(Bundle(spends.value, outputs.value, valueSum, anchor.value, a.bsk))
    else None
  }

  function MergeBundle(a: Bundle, b: Bundle, aGlobal: Global, bGlobal: Global): Option<Bundle> {
    Assemble(
      a, b,
      MergeList(MergeSpend, aGlobal.ShieldedModifiable(), bGlobal.ShieldedModifiable(), a.spends, b.spends),
      MergeList(MergeOutput, aGlobal.ShieldedModifiable(), bGlobal.ShieldedModifiable(), a.outputs, b.outputs))
  }

  /** `Bundle::merge`, with the case analysis of the original. */
  method MergeBundleInPlace(self: Bundle, other: Bundle, selfGlobal: Global, otherGlobal: Global)
    returns (r: Option<Bundle>)
    ensures r == MergeBundle(self, other, selfGlobal, otherGlobal)
  {
    var valueSum := self.valueSum;
    match (self.bsk, other.bsk) {
      case (Some(lhs), Some(rhs)) =>
        if lhs != rhs || |self.spends| != |other.spends| || |self.outputs| != |other.outputs|
           || self.valueSum != other.valueSum
        {
          return None;
        }
      case (None, None) =>
        if (|self.spends| < |other.spends| && |self.outputs| > |other.outputs|)
           || (|self.spends| > |other.spends| && |self.outputs| < |other.outputs|)
        {
          return None;
        }
        if |self.spends| < |other.spends| || |self.outputs| < |other.outputs| {
          valueSum := other.valueSum;
        }
      case _ =>
        if |self.spends| != |other.spends| || |self.outputs| != |other.outputs| || self.valueSum != other.valueSum {
          return None;
        }
    }
    var spends := MergeListInPlace(MergeSpend, selfGlobal.ShieldedModifiable(), otherGlobal.ShieldedModifiable(),
                                   self.spends, other.spends);
    if spends.None? {
      return None;
    }
    var outputs := MergeListInPlace(MergeOutput, selfGlobal.ShieldedModifiable(), otherGlobal.ShieldedModifiable(),
                                    self.outputs, other.outputs);
    if outputs.None? {
      return None;
    }
    var anchor := MergeOptional(self.anchor, other.anchor);
    if anchor.None? {
      return None;
    }
    return Some(Bundle(spends.value, outputs.value, valueSum, anchor.value, self.bsk));
  }

  lemma BundleUpper(a: Bundle, b: Bundle, ga: Global, gb: Global)
    requires MergeBundle(a, b, ga, gb).Some?
    ensures BundleLeq(a, MergeBundle(a, b, ga, gb).value, ga)
    ensures BundleLeq(b, MergeBundle(a, b, ga, gb).value, gb)
  {
    var ma, mb := ga.ShieldedModifiable(), gb.ShieldedModifiable();
    SpendLaws();
    OutputLaws();
    ListUpper(SpendLeq, MergeSpend, ma, mb, a.spends, b.spends);
    ListUpper(OutputLeq, MergeOutput, ma, mb, a.outputs, b.outputs);
  }

  /** With an upper bound in sight, a merge fails only for the two reasons specific to this bundle. */
  lemma BundleLeast(a: Bundle, b: Bundle, u: Bundle, ga: Global, gb: Global, gm: Global)
    requires BundleLeq(a, u, ga) && BundleLeq(b, u, gb)
    requires MergeGlobal(ga, gb) == Some(gm)
    ensures MergeBundle(a, b, ga, gb).Some? <==> BskCompatible(a, b) && !MixedGrowth(a, b)
    ensures MergeBundle(a, b, ga, gb).Some? ==> BundleLeq(MergeBundle(a, b, ga, gb).value, u, gm)
  {
    var ma, mb := ga.ShieldedModifiable(), gb.ShieldedModifiable();
    OptionLeast(a.anchor, b.anchor, u.anchor);
    var spends := MergeList(MergeSpend, ma, mb, a.spends, b.spends);
    var outputs := MergeList(MergeOutput, ma, mb, a.outputs, b.outputs);
    assert spends.Some? && ListLeq(SpendLeq, ma && mb, spends.value, u.spends) by {
      SpendLaws();
      ListLeast(SpendLeq, MergeSpend, ma, mb, a.spends, b.spends, u.spends);
    }
    assert outputs.Some? && ListLeq(OutputLeq, ma && mb, outputs.value, u.outputs) by {
      OutputLaws();
      ListLeast(OutputLeq, MergeOutput, ma, mb, a.outputs, b.outputs, u.outputs);
    }
    assert gm.ShieldedModifiable() <==> ma && mb by {
      GlobalUpper(ga, gb);
    }
  }

  lemma BundleTransitive(a: Bundle, b: Bundle, c: Bundle, ga: Global, gb: Global)
    requires GlobalLeq(ga, gb)
    requires BundleLeq(a, b, ga) && BundleLeq(b, c, gb)
    ensures BundleLeq(a, c, ga)
  {
    var ma, mb := ga.ShieldedModifiable(), gb.ShieldedModifiable();
    SpendLaws();
    OutputLaws();
    ListTransitive(SpendLeq, MergeSpend, ma, mb, a.spends, b.spends, c.spends);
    ListTransitive(OutputLeq, MergeOutput, ma, mb, a.outputs, b.outputs, c.outputs);
  }

  lemma BundleAntisymmetric(a: Bundle, b: Bundle, ga: Global, gb: Global)
    requires BundleLeq(a, b, ga) && BundleLeq(b, a, gb)
    ensures a.spends == b.spends && a.outputs == b.outputs && a.anchor == b.anchor
  {
    var ma, mb := ga.ShieldedModifiable(), gb.ShieldedModifiable();
    SpendLaws();
    OutputLaws();
    ListAntisymmetric(SpendLeq, MergeSpend, ma, mb, a.spends, b.spends);
    ListAntisymmetric(OutputLeq, MergeOutput, ma, mb, a.outputs, b.outputs);
  }

  /** The two sides end in the same bundle whichever of them is `self`. */
  predicate Symmetric(a: Bundle, b: Bundle) {
    a.bsk == b.bsk && (SameLengths(a, b) ==> a.valueSum == b.valueSum)
  }

  lemma AssembleCommutes(a: Bundle, b: Bundle, spends: Option<seq<Spend>>, outputs: Option<seq<Output>>)
    ensures Assemble(a, b, spends, outputs).Some? <==> Assemble(b, a, spends, outputs).Some?
    ensures Assemble(a, b, spends, outputs) == Assemble(b, a, spends, outputs) <==>
            Assemble(a, b, spends, outputs).None? || Symmetric(a, b)
  {
  }

  /** Merging in the other order gives the same result exactly when the sides do not agree, or both
      sides carry the same `bsk` and lists of equal lengths come with equal sums. */
  lemma MergeCommutes(a: Bundle, b: Bundle, ga: Global, gb: Global)
    ensures MergeBundle(a, b, ga, gb).Some? <==> MergeBundle(b, a, gb, ga).Some?
    ensures MergeBundle(a, b, ga, gb) == MergeBundle(b, a, gb, ga) <==>
            !BundlesAgree(a, b, ga, gb) || Symmetric(a, b)
  {
    BundleSucceedsIff(a, b, ga, gb);
    var ma, mb := ga.ShieldedModifiable(), gb.ShieldedModifiable();
    SpendLaws();
    OutputLaws();
    ListCommutes(SpendLeq, MergeSpend, ma, mb, a.spends, b.spends);
    ListCommutes(OutputLeq, MergeOutput, ma, mb, a.outputs, b.outputs);
    AssembleCommutes(a, b, MergeList(MergeSpend, ma, mb, a.spends, b.spends),
                     MergeList(MergeOutput, ma, mb, a.outputs, b.outputs));
  }

  lemma MergedLengths(a: Bundle, b: Bundle, ga: Global, gb: Global)
    requires MergeBundle(a, b, ga, gb).Some?
    ensures
      var c := MergeBundle(a, b, ga, gb).value;
      && |c.spends| == (if |a.spends| < |b.spends| then |b.spends| else |a.spends|)
      && |c.outputs| == (if |a.outputs| < |b.outputs| then |b.outputs| else |a.outputs|)
  {
  }

  /** Both groupings of three bundles take the sum and the key of the same one of them. */
  lemma GroupingTakesSameSum(a: Bundle, b: Bundle, c: Bundle, ga: Global, gb: Global, gc: Global, gab: Global,
                             gbc: Global)
    requires MergeBundle(a, b, ga, gb).Some? && MergeBundle(MergeBundle(a, b, ga, gb).value, c, gab, gc).Some?
    requires MergeBundle(b, c, gb, gc).Some? && MergeBundle(a, MergeBundle(b, c, gb, gc).value, ga, gbc).Some?
    ensures
      var left := MergeBundle(MergeBundle(a, b, ga, gb).value, c, gab, gc).value;
      var right := MergeBundle(a, MergeBundle(b, c, gb, gc).value, ga, gbc).value;
      left.valueSum == right.valueSum && left.bsk == right.bsk
  {
    MergedLengths(a, b, ga, gb);
    MergedLengths(b, c, gb, gc);
  }

  // ---------- Agreement ----------

  predicate SpendsAgree(a: Spend, b: Spend) {
    && a.SameEffects(b)
    && OptionsAgree(a.zkproof, b.zkproof)
    && OptionsAgree(a.spendAuthSig, b.spendAuthSig)
    && OptionsAgree(a.recipient, b.recipient)
    && OptionsAgree(a.value, b.value)
    && OptionsAgree(a.rcm, b.rcm)
    && OptionsAgree(a.rseed, b.rseed)
    && OptionsAgree(a.rcv, b.rcv)
    && OptionsAgree(a.proofGenerationKey, b.proofGenerationKey)
    && OptionsAgree(a.witnessPath, b.witnessPath)
    && OptionsAgree(a.alpha, b.alpha)
    && OptionsAgree(a.zip32Derivation, b.zip32Derivation)
    && OptionsAgree(a.dummyAsk, b.dummyAsk)
    && MapsAgree(a.proprietary, b.proprietary)
  }

  predicate OutputsAgree(a: Output, b: Output) {
    && a.SameEffects(b)
    && OptionsAgree(a.zkproof, b.zkproof)
    && OptionsAgree(a.recipient, b.recipient)
    && OptionsAgree(a.value, b.value)
    && OptionsAgree(a.rseed, b.rseed)
    && OptionsAgree(a.rcv, b.rcv)
    && OptionsAgree(a.ock, b.ock)
    && OptionsAgree(a.zip32Derivation, b.zip32Derivation)
    && OptionsAgree(a.userAddress, b.userAddress)
    && MapsAgree(a.proprietary, b.proprietary)
  }

  /** Spends merge exactly when their effects are equal and no field set on both sides differs. */
  lemma SpendSucceedsIff(a: Spend, b: Spend)
    ensures SpendsAgree(a, b) <==> MergeSpend(a, b).Some?
  {
    hide MergeOptional, OptionsAgree;
    OptionSucceedsIff(a.zkproof, b.zkproof);
    OptionSucceedsIff(a.spendAuthSig, b.spendAuthSig);
    OptionSucceedsIff(a.recipient, b.recipient);
    OptionSucceedsIff(a.value, b.value);
    OptionSucceedsIff(a.rcm, b.rcm);
    OptionSucceedsIff(a.rseed, b.rseed);
    OptionSucceedsIff(a.rcv, b.rcv);
    OptionSucceedsIff(a.proofGenerationKey, b.proofGenerationKey);
    OptionSucceedsIff(a.witnessPath, b.witnessPath);
    OptionSucceedsIff(a.alpha, b.alpha);
    OptionSucceedsIff(a.zip32Derivation, b.zip32Derivation);
    OptionSucceedsIff(a.dummyAsk, b.dummyAsk);
  }

  /** Outputs merge exactly when their effects are equal and no field set on both sides differs. */
  lemma OutputSucceedsIff(a: Output, b: Output)
    ensures OutputsAgree(a, b) <==> MergeOutput(a, b).Some?
  {
    hide MergeOptional, OptionsAgree;
    OptionSucceedsIff(a.zkproof, b.zkproof);
    OptionSucceedsIff(a.recipient, b.recipient);
    OptionSucceedsIff(a.value, b.value);
    OptionSucceedsIff(a.rseed, b.rseed);
    OptionSucceedsIff(a.rcv, b.rcv);
    OptionSucceedsIff(a.ock, b.ock);
    OptionSucceedsIff(a.zip32Derivation, b.zip32Derivation);
    OptionSucceedsIff(a.userAddress, b.userAddress);
  }

  lemma SpendCoherent(a: Spend, b: Spend, c: Spend)
    requires MergeSpend(a, b).Some? && SpendsAgree(a, c) && SpendsAgree(b, c)
    ensures SpendsAgree(MergeSpend(a, b).value, c)
  {
  }

  lemma OutputCoherent(a: Output, b: Output, c: Output)
    requires MergeOutput(a, b).Some? && OutputsAgree(a, c) && OutputsAgree(b, c)
    ensures OutputsAgree(MergeOutput(a, b).value, c)
  {
  }

  lemma AgreementDecides()
    ensures Decides(SpendsAgree, MergeSpend) && Decides(OutputsAgree, MergeOutput)
  {
    forall a, b ensures SpendsAgree(a, b) <==> MergeSpend(a, b).Some? {
      SpendSucceedsIff(a, b);
    }
    forall a, b ensures OutputsAgree(a, b) <==> MergeOutput(a, b).Some? {
      OutputSucceedsIff(a, b);
    }
  }

  lemma AgreementCoherent()
    ensures Coherent(SpendsAgree, MergeSpend) && Coherent(OutputsAgree, MergeOutput)
  {
    forall a, b, c | MergeSpend(a, b).Some? && SpendsAgree(a, c) && SpendsAgree(b, c)
      ensures SpendsAgree(MergeSpend(a, b).value, c)
    {
      SpendCoherent(a, b, c);
    }
    forall a, b, c | MergeOutput(a, b).Some? && OutputsAgree(a, c) && OutputsAgree(b, c)
      ensures OutputsAgree(MergeOutput(a, b).value, c)
    {
      OutputCoherent(a, b, c);
    }
  }

  predicate BundlesAgree(a: Bundle, b: Bundle, ga: Global, gb: Global) {
    && BskCompatible(a, b) && !MixedGrowth(a, b)
    && ListsAgree(SpendsAgree, ga.ShieldedModifiable(), gb.ShieldedModifiable(), a.spends, b.spends)
    && ListsAgree(OutputsAgree, ga.ShieldedModifiable(), gb.ShieldedModifiable(), a.outputs, b.outputs)
    && OptionsAgree(a.anchor, b.anchor)
  }

  lemma BundleSucceedsIff(a: Bundle, b: Bundle, ga: Global, gb: Global)
    ensures MergeBundle(a, b, ga, gb).Some? <==> BundlesAgree(a, b, ga, gb)
  {
    hide MergeSpend, MergeOutput, SpendsAgree, OutputsAgree, MergeList, ListsAgree;
    var ma, mb := ga.ShieldedModifiable(), gb.ShieldedModifiable();
    AgreementDecides();
    ListSucceedsIff(SpendsAgree, MergeSpend, ma, mb, a.spends, b.spends);
    ListSucceedsIff(OutputsAgree, MergeOutput, ma, mb, a.outputs, b.outputs);
  }

  /** Success on the fields: in particular, once either side has a key, the lengths and the sums are equal,
      and so are the keys if both have one. */
  lemma MergeSucceedsOnFieldsIff(a: Bundle, b: Bundle, ga: Global, gb: Global)
    ensures MergeBundle(a, b, ga, gb).Some? <==>
            && (a.bsk.Some? && b.bsk.Some? ==> a.bsk.value == b.bsk.value)
            && (a.bsk.Some? || b.bsk.Some? ==>
                  |a.spends| == |b.spends| && |a.outputs| == |b.outputs| && a.valueSum == b.valueSum)
            && !(|a.spends| < |b.spends| && |b.outputs| < |a.outputs|)
            && !(|b.spends| < |a.spends| && |a.outputs| < |b.outputs|)
            && (|a.spends| < |b.spends| || |a.outputs| < |b.outputs| ==> ga.txModifiable & 0x80 != 0)
            && (|b.spends| < |a.spends| || |b.outputs| < |a.outputs| ==> gb.txModifiable & 0x80 != 0)
            && (a.anchor.Some? && b.anchor.Some? ==> a.anchor.value == b.anchor.value)
            && (forall i :: 0 <= i < |a.spends| && i < |b.spends| ==> MergeSpend(a.spends[i], b.spends[i]).Some?)
            && (forall i :: 0 <= i < |a.outputs| && i < |b.outputs| ==> MergeOutput(a.outputs[i], b.outputs[i]).Some?)
  {
    hide MergeSpend, MergeOutput, MergeBundle, SpendsAgree, OutputsAgree;
    BundleSucceedsIff(a, b, ga, gb);
    AgreementDecides();
  }

  /** Bundles with a key that differ only in their sums do not merge, and neither do bundles with
      different keys. */
  lemma KeysPinSums(b: Bundle, x: int, y: int, k: Option<Bytes>, l: Option<Bytes>, ga: Global, gb: Global)
    requires k.Some? || l.Some?
    requires x != y || (k.Some? && l.Some? && k != l)
    ensures MergeBundle(b.(valueSum := x, bsk := k), b.(valueSum := y, bsk := l), ga, gb).None?
  {
    hide MergeBundle;
    MergeSucceedsOnFieldsIff(b.(valueSum := x, bsk := k), b.(valueSum := y, bsk := l), ga, gb);
  }

  /** The rules on keys and growth pass from both sides of a merge to the result. */
  lemma RulesCoherent(a: Bundle, b: Bundle, c: Bundle, ga: Global, gb: Global)
    requires MergeBundle(a, b, ga, gb).Some?
    requires BskCompatible(a, c) && BskCompatible(b, c) && !MixedGrowth(a, c) && !MixedGrowth(b, c)
    ensures BskCompatible(MergeBundle(a, b, ga, gb).value, c) && !MixedGrowth(MergeBundle(a, b, ga, gb).value, c)
  {
    MergedLengths(a, b, ga, gb);
  }

  /** What agrees with both sides of a merge agrees with the merged bundle. */
  lemma BundleCoherent(a: Bundle, b: Bundle, c: Bundle, ga: Global, gb: Global, gc: Global, gm: Global)
    requires MergeGlobal(ga, gb) == Some(gm) && MergeBundle(a, b, ga, gb).Some?
    requires BundlesAgree(a, c, ga, gc) && BundlesAgree(b, c, gb, gc)
    ensures BundlesAgree(MergeBundle(a, b, ga, gb).value, c, gm, gc)
  {
    hide MergeSpend, MergeOutput, SpendsAgree, OutputsAgree, MergeList, ListsAgree, BskCompatible, MixedGrowth;
    var ma, mb, mc := ga.ShieldedModifiable(), gb.ShieldedModifiable(), gc.ShieldedModifiable();
    GlobalUpper(ga, gb);
    RulesCoherent(a, b, c, ga, gb);
    AgreementDecides();
    AgreementCoherent();
    ListCoherent(SpendsAgree, MergeSpend, ma, mb, mc, a.spends, b.spends, c.spends);
    ListCoherent(OutputsAgree, MergeOutput, ma, mb, mc, a.outputs, b.outputs, c.outputs);
  }

  /** Given one grouping, the other meets the rules exactly when its inner pair does. */
  lemma RulesRegroup(a: Bundle, b: Bundle, c: Bundle, ga: Global, gb: Global, gc: Global)
    requires MergeBundle(a, b, ga, gb).Some? && MergeBundle(b, c, gb, gc).Some?
    requires BskCompatible(MergeBundle(a, b, ga, gb).value, c) && !MixedGrowth(MergeBundle(a, b, ga, gb).value, c)
    ensures BskCompatible(a, MergeBundle(b, c, gb, gc).value) && !MixedGrowth(a, MergeBundle(b, c, gb, gc).value)
  {
    MergedLengths(a, b, ga, gb);
    MergedLengths(b, c, gb, gc);
  }

  // ---------- What a run of merges looks like ----------

  /** Of the leader so far and the next bundle, the longer, with the key of the leader. */
  function Lead(leader: Bundle, next: Bundle): Bundle {
    if |leader.spends| < |next.spends| || |leader.outputs| < |next.outputs| then next.(bsk := leader.bsk) else leader
  }

  predicate SameShape(a: Bundle, b: Bundle) {
    SameLengths(a, b) && a.valueSum == b.valueSum && a.bsk == b.bsk
  }

  /** A merge has the lengths, the sum and the key of the leader. */
  lemma MergeHasLeaderShape(leader: Bundle, a: Bundle, b: Bundle, ga: Global, gb: Global)
    requires SameShape(leader, a) && MergeBundle(a, b, ga, gb).Some?
    ensures SameShape(Lead(leader, b), MergeBundle(a, b, ga, gb).value)
  {
    MergedLengths(a, b, ga, gb);
  }

  // ---------- The value sum ----------

  /** How effecting data determines value: each commitment opens to one amount. */
  datatype Valuation = Valuation(spend: SpendEffects -> int, output: OutputEffects -> int)

  function SpendTotal(v: Valuation, spends: seq<Spend>): int {
    if spends == [] then 0 else v.spend(spends[0].Effects()) + SpendTotal(v, spends[1..])
  }

  function OutputTotal(v: Valuation, outputs: seq<Output>): int {
    if outputs == [] then 0 else v.output(outputs[0].Effects()) + OutputTotal(v, outputs[1..])
  }

  /** The recorded sum is spends minus outputs. */
  predicate SumConsistent(v: Valuation, b: Bundle) {
    b.valueSum == SpendTotal(v, b.spends) - OutputTotal(v, b.outputs)
  }

  lemma {:induction false} SpendTotalByEffects(v: Valuation, xs: seq<Spend>, ys: seq<Spend>)
    requires |xs| == |ys|
    requires forall i :: 0 <= i < |xs| ==> SpendLeq(xs[i], ys[i])
    ensures SpendTotal(v, xs) == SpendTotal(v, ys)
  {
    if xs != [] {
      assert SpendLeq(xs[0], ys[0]);
      SpendTotalByEffects(v, xs[1..], ys[1..]);
    }
  }

  lemma {:induction false} OutputTotalByEffects(v: Valuation, xs: seq<Output>, ys: seq<Output>)
    requires |xs| == |ys|
    requires forall i :: 0 <= i < |xs| ==> OutputLeq(xs[i], ys[i])
    ensures OutputTotal(v, xs) == OutputTotal(v, ys)
  {
    if xs != [] {
      assert OutputLeq(xs[0], ys[0]);
      OutputTotalByEffects(v, xs[1..], ys[1..]);
    }
  }

  /** A successful merge of two bundles with correct sums has a correct sum. */
  lemma MergeKeepsSum(v: Valuation, a: Bundle, b: Bundle, ga: Global, gb: Global)
    requires SumConsistent(v, a) && SumConsistent(v, b)
    requires MergeBundle(a, b, ga, gb).Some?
    ensures SumConsistent(v, MergeBundle(a, b, ga, gb).value)
  {
    var c := MergeBundle(a, b, ga, gb).value;
    BundleUpper(a, b, ga, gb);
    hide MergeSpend, MergeOutput, MergeList;
    MergedLengths(a, b, ga, gb);
    var longer := if |a.spends| < |b.spends| || |a.outputs| < |b.outputs| then b else a;
    SpendTotalByEffects(v, longer.spends, c.spends);
    OutputTotalByEffects(v, longer.outputs, c.outputs);
  }
}
