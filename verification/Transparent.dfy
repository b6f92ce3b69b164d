/** The transparent bundle of a PCZT, and its merge. */
module Transparent {
  import opened Wrappers
  import opened PartialJoin
  import opened Common

  datatype Input = Input(
    prevoutTxid: Bytes,
    prevoutIndex: nat,
    sequence: Option<nat>,
    requiredTimeLockTime: Option<nat>,
    requiredHeightLockTime: Option<nat>,
    scriptSig: Option<Bytes>,
    value: nat,
    scriptPubkey: Bytes,
    redeemScript: Option<Bytes>,
    partialSignatures: map<Bytes, Bytes>,
    sighashType: byte,
    bip32Derivation: map<Bytes, Zip32Derivation>,
    ripemd160Preimages: map<Bytes, Bytes>,
    sha256Preimages: map<Bytes, Bytes>,
    hash160Preimages: map<Bytes, Bytes>,
    hash256Preimages: map<Bytes, Bytes>,
    proprietary: Proprietary)
  {
    /** The effecting data, which every copy must agree on. */
    predicate SameEffects(other: Input) {
      && prevoutTxid == other.prevoutTxid
      && prevoutIndex == other.prevoutIndex
      && value == other.value
      && scriptPubkey == other.scriptPubkey
      && sighashType == other.sighashType
    }
  }

  datatype Output = Output(
    value: nat,
    scriptPubkey: Bytes,
    redeemScript: Option<Bytes>,
    bip32Derivation: map<Bytes, Zip32Derivation>,
    userAddress: Option<string>,
    proprietary: Proprietary)

  datatype Bundle = Bundle(inputs: seq<Input>, outputs: seq<Output>)

  const EMPTY_BUNDLE := Bundle([], [])

  predicate InputLeq(a: Input, b: Input) {
    && a.SameEffects(b)
    && OptionLeq(a.sequence, b.sequence)
    && OptionLeq(a.requiredTimeLockTime, b.requiredTimeLockTime)
    && OptionLeq(a.requiredHeightLockTime, b.requiredHeightLockTime)
    && OptionLeq(a.scriptSig, b.scriptSig)
    && OptionLeq(a.redeemScript, b.redeemScript)
    && MapLeq(a.partialSignatures, b.partialSignatures)
    && MapLeq(a.bip32Derivation, b.bip32Derivation)
    && MapLeq(a.ripemd160Preimages, b.ripemd160Preimages)
    && MapLeq(a.sha256Preimages, b.sha256Preimages)
    && MapLeq(a.hash160Preimages, b.hash160Preimages)
    && MapLeq(a.hash256Preimages, b.hash256Preimages)
    && MapLeq(a.proprietary, b.proprietary)
  }

  predicate OutputLeq(a: Output, b: Output) {
    && a.value == b.value
    && a.scriptPubkey == b.scriptPubkey
    && OptionLeq(a.redeemScript, b.redeemScript)
    && MapLeq(a.bip32Derivation, b.bip32Derivation)
    && OptionLeq(a.userAddress, b.userAddress)
    && MapLeq(a.proprietary, b.proprietary)
  }

  function MergeInput(lhs: Input, rhs: Input): Option<Input> {
    var sequence := MergeOptional(lhs.sequence, rhs.sequence);
    var timeLock := MergeOptional(lhs.requiredTimeLockTime, rhs.requiredTimeLockTime);
    var heightLock := MergeOptional(lhs.requiredHeightLockTime, rhs.requiredHeightLockTime);
    var scriptSig := MergeOptional(lhs.scriptSig, rhs.scriptSig);
    var redeemScript := MergeOptional(lhs.redeemScript, rhs.redeemScript);
    var signatures := MergeMap(lhs.partialSignatures, rhs.partialSignatures);
    var derivation := MergeMap(lhs.bip32Derivation, rhs.bip32Derivation);
    var ripemd160 := MergeMap(lhs.ripemd160Preimages, rhs.ripemd160Preimages);
    var sha256 := MergeMap(lhs.sha256Preimages, rhs.sha256Preimages);
    var hash160 := MergeMap(lhs.hash160Preimages, rhs.hash160Preimages);
    var hash256 := MergeMap(lhs.hash256Preimages, rhs.hash256Preimages);
    var proprietary := MergeMap(lhs.proprietary, rhs.proprietary);
    if && lhs.SameEffects(rhs)
       && sequence.Some? && timeLock.Some? && heightLock.Some? && scriptSig.Some? && redeemScript.Some?
       && signatures.Some? && derivation.Some? && ripemd160.Some? && sha256.Some?
       && hash160.Some? && hash256.Some? && proprietary.Some?
    then
      Some(Input(lhs.prevoutTxid, lhs.prevoutIndex, sequence.value, timeLock.value, heightLock.value,
                 scriptSig.value, lhs.value, lhs.scriptPubkey, redeemScript.value, signatures.value,
                 lhs.sighashType, derivation.value, ripemd160.value, sha256.value, hash160.value,
                 hash256.value, proprietary.value))
    else None
  }

  function MergeOutput(lhs: Output, rhs: Output): Option<Output> {
    var redeemScript := MergeOptional(lhs.redeemScript, rhs.redeemScript);
    var derivation := MergeMap(lhs.bip32Derivation, rhs.bip32Derivation);
    var userAddress := MergeOptional(lhs.userAddress, rhs.userAddress);
    var proprietary := MergeMap(lhs.proprietary, rhs.proprietary);
    if && lhs.value == rhs.value && lhs.scriptPubkey == rhs.scriptPubkey
       && redeemScript.Some? && derivation.Some? && userAddress.Some? && proprietary.Some?
    then
      Some(Output(lhs.value, lhs.scriptPubkey, redeemScript.value, derivation.value, userAddress.value,
                  proprietary.value))
    else None
  }

  lemma InputAntisymmetric(a: Input, b: Input)
    requires InputLeq(a, b) && InputLeq(b, a)
    ensures a == b
  {
    assert a.partialSignatures == b.partialSignatures;
    assert a.bip32Derivation == b.bip32Derivation;
    assert a.ripemd160Preimages == b.ripemd160Preimages;
    assert a.sha256Preimages == b.sha256Preimages;
    assert a.hash160Preimages == b.hash160Preimages;
    assert a.hash256Preimages == b.hash256Preimages;
    assert a.proprietary == b.proprietary;
  }

  lemma InputUpper(a: Input, b: Input)
    requires MergeInput(a, b).Some?
    ensures InputLeq(a, MergeInput(a, b).value) && InputLeq(b, MergeInput(a, b).value)
  {
  }

  lemma InputLeast(a: Input, b: Input, u: Input)
    requires InputLeq(a, u) && InputLeq(b, u)
    ensures MergeInput(a, b).Some? && InputLeq(MergeInput(a, b).value, u)
  {
    OptionLeast(a.sequence, b.sequence, u.sequence);
    OptionLeast(a.requiredTimeLockTime, b.requiredTimeLockTime, u.requiredTimeLockTime);
    OptionLeast(a.requiredHeightLockTime, b.requiredHeightLockTime, u.requiredHeightLockTime);
    OptionLeast(a.scriptSig, b.scriptSig, u.scriptSig);
    OptionLeast(a.redeemScript, b.redeemScript, u.redeemScript);
    MapLeast(a.partialSignatures, b.partialSignatures, u.partialSignatures);
    MapLeast(a.bip32Derivation, b.bip32Derivation, u.bip32Derivation);
    MapLeast(a.ripemd160Preimages, b.ripemd160Preimages, u.ripemd160Preimages);
    MapLeast(a.sha256Preimages, b.sha256Preimages, u.sha256Preimages);
    MapLeast(a.hash160Preimages, b.hash160Preimages, u.hash160Preimages);
    MapLeast(a.hash256Preimages, b.hash256Preimages, u.hash256Preimages);
    MapLeast(a.proprietary, b.proprietary, u.proprietary);
  }

  lemma InputTransitive(a: Input, b: Input, c: Input)
    requires InputLeq(a, b) && InputLeq(b, c)
    ensures InputLeq(a, c)
  {
  }

  lemma InputLaws()
    ensures JoinLaws(InputLeq, MergeInput)
  {
    forall a: Input, b: Input | InputLeq(a, b) && InputLeq(b, a) ensures a == b {
      InputAntisymmetric(a, b);
    }
    forall a: Input, b: Input, c: Input | InputLeq(a, b) && InputLeq(b, c) ensures InputLeq(a, c) {
      InputTransitive(a, b, c);
    }
    forall a: Input, b: Input | MergeInput(a, b).Some?
      ensures InputLeq(a, MergeInput(a, b).value) && InputLeq(b, MergeInput(a, b).value)
    {
      InputUpper(a, b);
    }
    forall a: Input, b: Input, u: Input | InputLeq(a, u) && InputLeq(b, u)
      ensures MergeInput(a, b).Some? && InputLeq(MergeInput(a, b).value, u)
    {
      InputLeast(a, b, u);
    }
  }

  lemma OutputAntisymmetric(a: Output, b: Output)
    requires OutputLeq(a, b) && OutputLeq(b, a)
    ensures a == b
  {
    assert a.bip32Derivation == b.bip32Derivation;
    assert a.proprietary == b.proprietary;
  }

  lemma OutputUpper(a: Output, b: Output)
    requires MergeOutput(a, b).Some?
    ensures OutputLeq(a, MergeOutput(a, b).value) && OutputLeq(b, MergeOutput(a, b).value)
  {
  }

  lemma OutputLeast(a: Output, b: Output, u: Output)
    requires OutputLeq(a, u) && OutputLeq(b, u)
    ensures MergeOutput(a, b).Some? && OutputLeq(MergeOutput(a, b).value, u)
  {
    OptionLeast(a.redeemScript, b.redeemScript, u.redeemScript);
    OptionLeast(a.userAddress, b.userAddress, u.userAddress);
    MapLeast(a.bip32Derivation, b.bip32Derivation, u.bip32Derivation);
    MapLeast(a.proprietary, b.proprietary, u.proprietary);
  }

  lemma OutputTransitive(a: Output, b: Output, c: Output)
    requires OutputLeq(a, b) && OutputLeq(b, c)
    ensures OutputLeq(a, c)
  {
  }

  lemma OutputLaws()
    ensures JoinLaws(OutputLeq, MergeOutput)
  {
    forall a: Output, b: Output | OutputLeq(a, b) && OutputLeq(b, a) ensures a == b {
      OutputAntisymmetric(a, b);
    }
    forall a: Output, b: Output, c: Output | OutputLeq(a, b) && OutputLeq(b, c) ensures OutputLeq(a, c) {
      OutputTransitive(a, b, c);
    }
    forall a: Output, b: Output | MergeOutput(a, b).Some?
      ensures OutputLeq(a, MergeOutput(a, b).value) && OutputLeq(b, MergeOutput(a, b).value)
    {
      OutputUpper(a, b);
    }
    forall a: Output, b: Output, u: Output | OutputLeq(a, u) && OutputLeq(b, u)
      ensures MergeOutput(a, b).Some? && OutputLeq(MergeOutput(a, b).value, u)
    {
      OutputLeast(a, b, u);
    }
  }

  predicate BundleLeq(a: Bundle, b: Bundle, aGlobal: Global) {
    && ListLeq(InputLeq, aGlobal.InputsModifiable(), a.inputs, b.inputs)
    && ListLeq(OutputLeq, aGlobal.OutputsModifiable(), a.outputs, b.outputs)
  }

  function MergeBundle(a: Bundle, b: Bundle, aGlobal: Global, bGlobal: Global): Option<Bundle> {
    var inputs :- MergeList(MergeInput, aGlobal.InputsModifiable(), bGlobal.InputsModifiable(), a.inputs, b.inputs);
    var outputs :- MergeList(MergeOutput, aGlobal.OutputsModifiable(), bGlobal.OutputsModifiable(), a.outputs,
                             b.outputs);
    Some(Bundle(inputs, outputs))
  }

  /** `Bundle::merge`. */
  method MergeBundleInPlace(self: Bundle, other: Bundle, selfGlobal: Global, otherGlobal: Global)
    returns (r: Option<Bundle>)
    ensures r == MergeBundle(self, other, selfGlobal, otherGlobal)
  {
    var inputs := MergeListInPlace(MergeInput, selfGlobal.InputsModifiable(), otherGlobal.InputsModifiable(),
                                   self.inputs, other.inputs);
    if inputs.None? {
      return None;
    }
    var outputs := MergeListInPlace(MergeOutput, selfGlobal.OutputsModifiable(), otherGlobal.OutputsModifiable(),
                                    self.outputs, other.outputs);
    if outputs.None? {
      return None;
    }
    return Some(Bundle(inputs.value, outputs.value));
  }

  lemma BundleUpper(a: Bundle, b: Bundle, ga: Global, gb: Global)
    requires MergeBundle(a, b, ga, gb).Some?
    ensures BundleLeq(a, MergeBundle(a, b, ga, gb).value, ga)
    ensures BundleLeq(b, MergeBundle(a, b, ga, gb).value, gb)
  {
    InputLaws();
    OutputLaws();
    ListUpper(InputLeq, MergeInput, ga.InputsModifiable(), gb.InputsModifiable(), a.inputs, b.inputs);
    ListUpper(OutputLeq, MergeOutput, ga.OutputsModifiable(), gb.OutputsModifiable(), a.outputs, b.outputs);
  }

  lemma BundleLeast(a: Bundle, b: Bundle, u: Bundle, ga: Global, gb: Global, gm: Global)
    requires BundleLeq(a, u, ga) && BundleLeq(b, u, gb)
    requires MergeGlobal(ga, gb) == Some(gm)
    ensures MergeBundle(a, b, ga, gb).Some?
    ensures BundleLeq(MergeBundle(a, b, ga, gb).value, u, gm)
  {
    InputLaws();
    OutputLaws();
    GlobalUpper(ga, gb);
    ListLeast(InputLeq, MergeInput, ga.InputsModifiable(), gb.InputsModifiable(), a.inputs, b.inputs, u.inputs);
    ListLeast(OutputLeq, MergeOutput, ga.OutputsModifiable(), gb.OutputsModifiable(), a.outputs, b.outputs, u.outputs);
  }

  lemma BundleTransitive(a: Bundle, b: Bundle, c: Bundle, ga: Global, gb: Global)
    requires GlobalLeq(ga, gb)
    requires BundleLeq(a, b, ga) && BundleLeq(b, c, gb)
    ensures BundleLeq(a, c, ga)
  {
    InputLaws();
    OutputLaws();
    ListTransitive(InputLeq, MergeInput, ga.InputsModifiable(), gb.InputsModifiable(), a.inputs, b.inputs, c.inputs);
    ListTransitive(OutputLeq, MergeOutput, ga.OutputsModifiable(), gb.OutputsModifiable(), a.outputs, b.outputs,
                   c.outputs);
  }

  lemma BundleAntisymmetric(a: Bundle, b: Bundle, ga: Global, gb: Global)
    requires BundleLeq(a, b, ga) && BundleLeq(b, a, gb)
    ensures a == b
  {
    InputLaws();
    OutputLaws();
    ListAntisymmetric(InputLeq, MergeInput, ga.InputsModifiable(), gb.InputsModifiable(), a.inputs, b.inputs);
    ListAntisymmetric(OutputLeq, MergeOutput, ga.OutputsModifiable(), gb.OutputsModifiable(), a.outputs, b.outputs);
  }

  lemma MergeCommutes(a: Bundle, b: Bundle, ga: Global, gb: Global)
    ensures MergeBundle(a, b, ga, gb) == MergeBundle(b, a, gb, ga)
  {
    InputLaws();
    OutputLaws();
    ListCommutes(InputLeq, MergeInput, ga.InputsModifiable(), gb.InputsModifiable(), a.inputs, b.inputs);
    ListCommutes(OutputLeq, MergeOutput, ga.OutputsModifiable(), gb.OutputsModifiable(), a.outputs, b.outputs);
  }

  // ---------- Agreement ----------

  predicate InputsAgree(a: Input, b: Input) {
    && a.SameEffects(b)
    && OptionsAgree(a.sequence, b.sequence)
    && OptionsAgree(a.requiredTimeLockTime, b.requiredTimeLockTime)
    && OptionsAgree(a.requiredHeightLockTime, b.requiredHeightLockTime)
    && OptionsAgree(a.scriptSig, b.scriptSig)
    && OptionsAgree(a.redeemScript, b.redeemScript)
    && MapsAgree(a.partialSignatures, b.partialSignatures)
    && MapsAgree(a.bip32Derivation, b.bip32Derivation)
    && MapsAgree(a.ripemd160Preimages, b.ripemd160Preimages)
    && MapsAgree(a.sha256Preimages, b.sha256Preimages)
    && MapsAgree(a.hash160Preimages, b.hash160Preimages)
    && MapsAgree(a.hash256Preimages, b.hash256Preimages)
    && MapsAgree(a.proprietary, b.proprietary)
  }

  predicate OutputsAgree(a: Output, b: Output) {
    && a.value == b.value && a.scriptPubkey == b.scriptPubkey
    && OptionsAgree(a.redeemScript, b.redeemScript)
    && MapsAgree(a.bip32Derivation, b.bip32Derivation)
    && OptionsAgree(a.userAddress, b.userAddress)
    && MapsAgree(a.proprietary, b.proprietary)
  }

  lemma InputSucceedsIff(a: Input, b: Input)
    ensures InputsAgree(a, b) <==> MergeInput(a, b).Some?
  {
    hide MergeOptional, OptionsAgree;
    OptionSucceedsIff(a.sequence, b.sequence);
    OptionSucceedsIff(a.requiredTimeLockTime, b.requiredTimeLockTime);
    OptionSucceedsIff(a.requiredHeightLockTime, b.requiredHeightLockTime);
    OptionSucceedsIff(a.scriptSig, b.scriptSig);
    OptionSucceedsIff(a.redeemScript, b.redeemScript);
  }

  lemma OutputSucceedsIff(a: Output, b: Output)
    ensures OutputsAgree(a, b) <==> MergeOutput(a, b).Some?
  {
  }

  predicate BundlesAgree(a: Bundle, b: Bundle, ga: Global, gb: Global) {
    && ListsAgree(InputsAgree, ga.InputsModifiable(), gb.InputsModifiable(), a.inputs, b.inputs)
    && ListsAgree(OutputsAgree, ga.OutputsModifiable(), gb.OutputsModifiable(), a.outputs, b.outputs)
  }

  lemma AgreementDecides()
    ensures Decides(InputsAgree, MergeInput) && Decides(OutputsAgree, MergeOutput)
  {
    forall a, b ensures InputsAgree(a, b) <==> MergeInput(a, b).Some? {
      InputSucceedsIff(a, b);
    }
    forall a, b ensures OutputsAgree(a, b) <==> MergeOutput(a, b).Some? {
      OutputSucceedsIff(a, b);
    }
  }

  lemma BundleSucceedsIff(a: Bundle, b: Bundle, ga: Global, gb: Global)
    ensures MergeBundle(a, b, ga, gb).Some? <==> BundlesAgree(a, b, ga, gb)
  {
    AgreementDecides();
    ListSucceedsIff(InputsAgree, MergeInput, ga.InputsModifiable(), gb.InputsModifiable(), a.inputs, b.inputs);
    ListSucceedsIff(OutputsAgree, MergeOutput, ga.OutputsModifiable(), gb.OutputsModifiable(), a.outputs, b.outputs);
  }

  lemma InputCoherent(a: Input, b: Input, c: Input)
    requires MergeInput(a, b).Some? && InputsAgree(a, c) && InputsAgree(b, c)
    ensures InputsAgree(MergeInput(a, b).value, c)
  {
  }

  lemma OutputCoherent(a: Output, b: Output, c: Output)
    requires MergeOutput(a, b).Some? && OutputsAgree(a, c) && OutputsAgree(b, c)
    ensures OutputsAgree(MergeOutput(a, b).value, c)
  {
  }

  lemma AgreementCoherent()
    ensures Coherent(InputsAgree, MergeInput) && Coherent(OutputsAgree, MergeOutput)
  {
    forall a, b, c | MergeInput(a, b).Some? && InputsAgree(a, c) && InputsAgree(b, c)
      ensures InputsAgree(MergeInput(a, b).value, c)
    {
      InputCoherent(a, b, c);
    }
    forall a, b, c | MergeOutput(a, b).Some? && OutputsAgree(a, c) && OutputsAgree(b, c)
      ensures OutputsAgree(MergeOutput(a, b).value, c)
    {
      OutputCoherent(a, b, c);
    }
  }

  /** What agrees with both sides of a merge agrees with the merged bundle. */
  lemma BundleCoherent(a: Bundle, b: Bundle, c: Bundle, ga: Global, gb: Global, gc: Global, gm: Global)
    requires MergeGlobal(ga, gb) == Some(gm) && MergeBundle(a, b, ga, gb).Some?
    requires BundlesAgree(a, c, ga, gc) && BundlesAgree(b, c, gb, gc)
    ensures BundlesAgree(MergeBundle(a, b, ga, gb).value, c, gm, gc)
  {
    hide InputsAgree, OutputsAgree, MergeInput, MergeOutput, ListsAgree;
    AgreementDecides();
    AgreementCoherent();
    GlobalUpper(ga, gb);
    ListCoherent(InputsAgree, MergeInput, ga.InputsModifiable(), gb.InputsModifiable(), gc.InputsModifiable(),
                 a.inputs, b.inputs, c.inputs);
    ListCoherent(OutputsAgree, MergeOutput, ga.OutputsModifiable(), gb.OutputsModifiable(), gc.OutputsModifiable(),
                 a.outputs, b.outputs, c.outputs);
  }
}
