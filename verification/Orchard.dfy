/** The Orchard-protocol bundles of a PCZT (the Orchard and Ironwood slots share this type), their
    merge, and the value sum they carry. */
module Orchard {
  import opened Wrappers
  import opened PartialJoin
  import opened Common
  import opened Memos

  datatype NoteVersion = V2 | V3

  /** The encrypted note plaintext, or the stripped memo from which it can be recomputed. */
  datatype EncCiphertext = Encrypted(ciphertext: Bytes) | MemoPlaintext(stripped: StrippedMemo)

  datatype Spend = Spend(
    nullifier: Bytes,
    rk: Bytes,
    spendAuthSig: Option<Bytes>,
    recipient: Option<Bytes>,
    value: Option<nat>,
    rho: Option<Bytes>,
    rseed: Option<Bytes>,
    fvk: Option<Bytes>,
    witnessPath: Option<(nat, seq<Bytes>)>,
    alpha: Option<Bytes>,
    zip32Derivation: Option<Zip32Derivation>,
    dummySk: Option<Bytes>,
    proprietary: Proprietary)
  {
    /** The fields every copy must hold and agree on. */
    predicate SameEffects(other: Spend) {
      && nullifier == other.nullifier
      && rk == other.rk
    }
  }

  datatype Output = Output(
    cmx: Option<Bytes>,
    ephemeralKey: Bytes,
    encCiphertext: EncCiphertext,
    outCiphertext: Bytes,
    recipient: Option<Bytes>,
    value: Option<nat>,
    rseed: Option<Bytes>,
    ock: Option<Bytes>,
    zip32Derivation: Option<Zip32Derivation>,
    userAddress: Option<string>,
    proprietary: Proprietary)
  {
    /** The fields every copy must hold and agree on. */
    predicate SameEffects(other: Output) {
      && ephemeralKey == other.ephemeralKey
      && encCiphertext == other.encCiphertext
      && outCiphertext == other.outCiphertext
    }
  }

  datatype Action = Action(cvNet: Option<Bytes>, spend: Spend, output: Output, rcv: Option<Bytes>)
  {
    function Effects(): ActionEffects {
      ActionEffects(spend.nullifier, spend.rk, output.ephemeralKey, output.encCiphertext, output.outCiphertext)
    }
  }

  datatype ActionEffects = ActionEffects(
    nullifier: Bytes, rk: Bytes, ephemeralKey: Bytes, encCiphertext: EncCiphertext, outCiphertext: Bytes)

  /** A signed value as the wire carries it; zero has two spellings. */
  datatype ValueSum = ValueSum(magnitude: nat, negative: bool) {
    function Value(): int {
      if negative then -(magnitude as int) else magnitude
    }
  }

  datatype Bundle = Bundle(
    actions: seq<Action>,
    flags: byte,
    valueSum: ValueSum,
    anchor: Option<Bytes>,
    noteVersion: NoteVersion,
    zkproof: Option<Bytes>,
    bsk: Option<Bytes>)

  const ORCHARD_SPENDS_AND_OUTPUTS_ENABLED: byte := 3
  const IRONWOOD_SPENDS_OUTPUTS_AND_CROSS_ADDRESS_ENABLED: byte := 7

  const EMPTY_ORCHARD :=
    Bundle([], ORCHARD_SPENDS_AND_OUTPUTS_ENABLED, ValueSum(0, false), None, V2, None, None)

  const EMPTY_IRONWOOD :=
    Bundle([], IRONWOOD_SPENDS_OUTPUTS_AND_CROSS_ADDRESS_ENABLED, ValueSum(0, false), None, V3, None, None)

  predicate SpendLeq(a: Spend, b: Spend) {
    && a.SameEffects(b)
    && OptionLeq(a.spendAuthSig, b.spendAuthSig)
    && OptionLeq(a.recipient, b.recipient)
    && OptionLeq(a.value, b.value)
    && OptionLeq(a.rho, b.rho)
    && OptionLeq(a.rseed, b.rseed)
    && OptionLeq(a.fvk, b.fvk)
    && OptionLeq(a.witnessPath, b.witnessPath)
    && OptionLeq(a.alpha, b.alpha)
    && OptionLeq(a.zip32Derivation, b.zip32Derivation)
    && OptionLeq(a.dummySk, b.dummySk)
    && MapLeq(a.proprietary, b.proprietary)
  }

  predicate OutputLeq(a: Output, b: Output) {
    && a.SameEffects(b)
    && OptionLeq(a.cmx, b.cmx)
    && OptionLeq(a.recipient, b.recipient)
    && OptionLeq(a.value, b.value)
    && OptionLeq(a.rseed, b.rseed)
    && OptionLeq(a.ock, b.ock)
    && OptionLeq(a.zip32Derivation, b.zip32Derivation)
    && OptionLeq(a.userAddress, b.userAddress)
    && MapLeq(a.proprietary, b.proprietary)
  }

  predicate ActionLeq(a: Action, b: Action) {
    && OptionLeq(a.cvNet, b.cvNet)
    && SpendLeq(a.spend, b.spend)
    && OutputLeq(a.output, b.output)
    && OptionLeq(a.rcv, b.rcv)
  }

  function MergeSpend(lhs: Spend, rhs: Spend): Option<Spend> {
    var spendAuthSig := MergeOptional(lhs.spendAuthSig, rhs.spendAuthSig);
    var recipient := MergeOptional(lhs.recipient, rhs.recipient);
    var value := MergeOptional(lhs.value, rhs.value);
    var rho := MergeOptional(lhs.rho, rhs.rho);
    var rseed := MergeOptional(lhs.rseed, rhs.rseed);
    var fvk := MergeOptional(lhs.fvk, rhs.fvk);
    var witnessPath := MergeOptional(lhs.witnessPath, rhs.witnessPath);
    var alpha := MergeOptional(lhs.alpha, rhs.alpha);
    var zip32Derivation := MergeOptional(lhs.zip32Derivation, rhs.zip32Derivation);
    var dummySk := MergeOptional(lhs.dummySk, rhs.dummySk);
    var proprietary := MergeMap(lhs.proprietary, rhs.proprietary);
    if && lhs.SameEffects(rhs)
       && spendAuthSig.Some? && recipient.Some? && value.Some? && rho.Some?
       && rseed.Some? && fvk.Some? && witnessPath.Some? && alpha.Some?
       && zip32Derivation.Some? && dummySk.Some? && proprietary.Some?
    then
      Some(Spend(lhs.nullifier, lhs.rk, spendAuthSig.value, recipient.value, value.value, rho.value,
                 rseed.value, fvk.value, witnessPath.value, alpha.value, zip32Derivation.value,
                 dummySk.value, proprietary.value))
    else None
  }

  function MergeOutput(lhs: Output, rhs: Output): Option<Output> {
    var cmx := MergeOptional(lhs.cmx, rhs.cmx);
    var recipient := MergeOptional(lhs.recipient, rhs.recipient);
    var value := MergeOptional(lhs.value, rhs.value);
    var rseed := MergeOptional(lhs.rseed, rhs.rseed);
    var ock := MergeOptional(lhs.ock, rhs.ock);
    var zip32Derivation := MergeOptional(lhs.zip32Derivation, rhs.zip32Derivation);
    var userAddress := MergeOptional(lhs.userAddress, rhs.userAddress);
    var proprietary := MergeMap(lhs.proprietary, rhs.proprietary);
    if && lhs.SameEffects(rhs)
       && cmx.Some? && recipient.Some? && value.Some? && rseed.Some?
       && ock.Some? && zip32Derivation.Some? && userAddress.Some? && proprietary.Some?
    then
      Some(Output(cmx.value, lhs.ephemeralKey, lhs.encCiphertext, lhs.outCiphertext, recipient.value,
                  value.value, rseed.value, ock.value, zip32Derivation.value, userAddress.value,
                  proprietary.value))
    else None
  }

  function MergeAction(lhs: Action, rhs: Action): Option<Action> {
    var cvNet := MergeOptional(lhs.cvNet, rhs.cvNet);
    var spend := MergeSpend(lhs.spend, rhs.spend);
    var output := MergeOutput(lhs.output, rhs.output);
    var rcv := MergeOptional(lhs.rcv, rhs.rcv);
    if cvNet.Some? && spend.Some? && output.Some? && rcv.Some?
    then Some(Action(cvNet.value, spend.value, output.value, rcv.value))
    else None
  }

  lemma SpendAntisymmetric(a: Spend, b: Spend)
    requires SpendLeq(a, b) && SpendLeq(b, a)
    ensures a == b
  {
    assert a.proprietary == b.proprietary;
  }

  lemma SpendUpper(a: Spend, b: Spend)
    requires MergeSpend(a, b).Some?
    ensures SpendLeq(a, MergeSpend(a, b).value) && SpendLeq(b, MergeSpend(a, b).value)
  {
  }

  lemma SpendLeast(a: Spend, b: Spend, u: Spend)
    requires SpendLeq(a, u) && SpendLeq(b, u)
    ensures MergeSpend(a, b).Some? && SpendLeq(MergeSpend(a, b).value, u)
  {
    OptionLeast(a.spendAuthSig, b.spendAuthSig, u.spendAuthSig);
    OptionLeast(a.recipient, b.recipient, u.recipient);
    OptionLeast(a.value, b.value, u.value);
    OptionLeast(a.rho, b.rho, u.rho);
    OptionLeast(a.rseed, b.rseed, u.rseed);
    OptionLeast(a.fvk, b.fvk, u.fvk);
    OptionLeast(a.witnessPath, b.witnessPath, u.witnessPath);
    OptionLeast(a.alpha, b.alpha, u.alpha);
    OptionLeast(a.zip32Derivation, b.zip32Derivation, u.zip32Derivation);
    OptionLeast(a.dummySk, b.dummySk, u.dummySk);
    MapLeast(a.proprietary, b.proprietary, u.proprietary);
  }

  lemma SpendTransitive(a: Spend, b: Spend, c: Spend)
    requires SpendLeq(a, b) && SpendLeq(b, c)
    ensures SpendLeq(a, c)
  {
  }

  lemma SpendLaws()
    ensures JoinLaws(SpendLeq, MergeSpend)
  {
    forall a: Spend, b: Spend | SpendLeq(a, b) && SpendLeq(b, a) ensures a == b {
      SpendAntisymmetric(a, b);
    }
    forall a: Spend, b: Spend, c: Spend | SpendLeq(a, b) && SpendLeq(b, c) ensures SpendLeq(a, c) {
      SpendTransitive(a, b, c);
    }
    forall a: Spend, b: Spend | MergeSpend(a, b).Some?
      ensures SpendLeq(a, MergeSpend(a, b).value) && SpendLeq(b, MergeSpend(a, b).value)
    {
      SpendUpper(a, b);
    }
    forall a: Spend, b: Spend, u: Spend | SpendLeq(a, u) && SpendLeq(b, u)
      ensures MergeSpend(a, b).Some? && SpendLeq(MergeSpend(a, b).value, u)
    {
      SpendLeast(a, b, u);
    }
  }

  lemma OutputAntisymmetric(a: Output, b: Output)
    requires OutputLeq(a, b) && OutputLeq(b, a)
    ensures a == b
  {
    assert a.proprietary == b.proprietary;
  }

  lemma OutputUpper(a: Output, b: Output)
    requires MergeOutput(a, b).Some?
    ensures OutputLeq(a, MergeOutput(a, b).value) && OutputLeq(b, MergeOutput(a, b).value)
  {
  }

  lemma OutputLeast(a: Output, b: Output, u: Output)
    requires OutputLeq(a, u) && OutputLeq(b, u)
    ensures MergeOutput(a, b).Some? && OutputLeq(MergeOutput(a, b).value, u)
  {
    OptionLeast(a.cmx, b.cmx, u.cmx);
    OptionLeast(a.recipient, b.recipient, u.recipient);
    OptionLeast(a.value, b.value, u.value);
    OptionLeast(a.rseed, b.rseed, u.rseed);
    OptionLeast(a.ock, b.ock, u.ock);
    OptionLeast(a.zip32Derivation, b.zip32Derivation, u.zip32Derivation);
    OptionLeast(a.userAddress, b.userAddress, u.userAddress);
    MapLeast(a.proprietary, b.proprietary, u.proprietary);
  }

  lemma OutputTransitive(a: Output, b: Output, c: Output)
    requires OutputLeq(a, b) && OutputLeq(b, c)
    ensures OutputLeq(a, c)
  {
  }

  lemma OutputLaws()
    ensures JoinLaws(OutputLeq, MergeOutput)
  {
    forall a: Output, b: Output | OutputLeq(a, b) && OutputLeq(b, a) ensures a == b {
      OutputAntisymmetric(a, b);
    }
    forall a: Output, b: Output, c: Output | OutputLeq(a, b) && OutputLeq(b, c) ensures OutputLeq(a, c) {
      OutputTransitive(a, b, c);
    }
    forall a: Output, b: Output | MergeOutput(a, b).Some?
      ensures OutputLeq(a, MergeOutput(a, b).value) && OutputLeq(b, MergeOutput(a, b).value)
    {
      OutputUpper(a, b);
    }
    forall a: Output, b: Output, u: Output | OutputLeq(a, u) && OutputLeq(b, u)
      ensures MergeOutput(a, b).Some? && OutputLeq(MergeOutput(a, b).value, u)
    {
      OutputLeast(a, b, u);
    }
  }

  lemma ActionAntisymmetric(a: Action, b: Action)
    requires ActionLeq(a, b) && ActionLeq(b, a)
    ensures a == b
  {
    SpendAntisymmetric(a.spend, b.spend);
    OutputAntisymmetric(a.output, b.output);
  }

  lemma ActionTransitive(a: Action, b: Action, c: Action)
    requires ActionLeq(a, b) && ActionLeq(b, c)
    ensures ActionLeq(a, c)
  {
    SpendTransitive(a.spend, b.spend, c.spend);
    OutputTransitive(a.output, b.output, c.output);
  }

  lemma ActionUpper(a: Action, b: Action)
    requires MergeAction(a, b).Some?
    ensures ActionLeq(a, MergeAction(a, b).value) && ActionLeq(b, MergeAction(a, b).value)
  {
    SpendUpper(a.spend, b.spend);
    OutputUpper(a.output, b.output);
  }

  lemma ActionLeast(a: Action, b: Action, u: Action)
    requires ActionLeq(a, u) && ActionLeq(b, u)
    ensures MergeAction(a, b).Some? && ActionLeq(MergeAction(a, b).value, u)
  {
    OptionLeast(a.cvNet, b.cvNet, u.cvNet);
    SpendLeast(a.spend, b.spend, u.spend);
    OutputLeast(a.output, b.output, u.output);
    OptionLeast(a.rcv, b.rcv, u.rcv);
  }

  lemma ActionLaws()
    ensures JoinLaws(ActionLeq, MergeAction)
  {
    forall a: Action, b: Action | ActionLeq(a, b) && ActionLeq(b, a) ensures a == b {
      ActionAntisymmetric(a, b);
    }
    forall a: Action, b: Action, c: Action | ActionLeq(a, b) && ActionLeq(b, c) ensures ActionLeq(a, c) {
      ActionTransitive(a, b, c);
    }
    forall a: Action, b: Action | MergeAction(a, b).Some?
      ensures ActionLeq(a, MergeAction(a, b).value) && ActionLeq(b, MergeAction(a, b).value)
    {
      ActionUpper(a, b);
    }
    forall a: Action, b: Action, u: Action | ActionLeq(a, u) && ActionLeq(b, u)
      ensures MergeAction(a, b).Some? && ActionLeq(MergeAction(a, b).value, u)
    {
      ActionLeast(a, b, u);
    }
  }

  /** The information order on bundles. It says nothing about `valueSum` and `bsk`, which the merge
      does not treat as information to be joined. */
  predicate BundleLeq(a: Bundle, b: Bundle, aGlobal: Global) {
    && a.flags == b.flags
    && a.noteVersion == b.noteVersion
    && ListLeq(ActionLeq, aGlobal.ShieldedModifiable(), a.actions, b.actions)
    && OptionLeq(a.anchor, b.anchor)
    && OptionLeq(a.zkproof, b.zkproof)
  }

  /** Once the IO Finalizer has run on either side, nothing may be added and the sums must match. */
  predicate BskCompatible(a: Bundle, b: Bundle) {
    && (a.bsk.Some? && b.bsk.Some? ==> a.bsk == b.bsk)
    && (a.bsk.Some? || b.bsk.Some? ==> |a.actions| == |b.actions| && a.valueSum == b.valueSum)
  }

  /** The merged bundle, once the lists have been merged. */
  function Assemble(a: Bundle, b: Bundle, actions: Option<seq<Action>>): Option<Bundle> {
    var anchor := MergeOptional(a.anchor, b.anchor);
    var zkproof := MergeOptional(a.zkproof, b.zkproof);
    var valueSum := if |a.actions| < |b.actions| then b.valueSum else a.valueSum;
    if && a.flags == b.flags && a.noteVersion == b.noteVersion && BskCompatible(a, b)
       && actions.Some? && anchor.Some? && zkproof.Some?
    then Some(Bundle(actions.value, a.flags, valueSum, anchor.value, a.noteVersion, zkproof.value, a.bsk))
    else None
  }

  function MergeBundle(a: Bundle, b: Bundle, aGlobal: Global, bGlobal: Global): Option<Bundle> {
    Assemble(
      a, b,
      MergeList(MergeAction, aGlobal.ShieldedModifiable(), bGlobal.ShieldedModifiable(), a.actions, b.actions))
  }

  /** `Bundle::merge`, with the case analysis of the original. */
  method MergeBundleInPlace(self: Bundle, other: Bundle, selfGlobal: Global, otherGlobal: Global)
    returns (r: Option<Bundle>)
    ensures r == MergeBundle(self, other, selfGlobal, otherGlobal)
  {
    if self.flags != other.flags || self.noteVersion != other.noteVersion {
      return None;
    }
    var valueSum := self.valueSum;
    match (self.bsk, other.bsk) {
      case (Some(lhs), Some(rhs)) =>
        if lhs != rhs || |self.actions| != |other.actions| || self.valueSum != other.valueSum {
          return None;
        }
      case (None, None) =>
        if |self.actions| < |other.actions| {
          valueSum := other.valueSum;
        }
      case _ =>
        if |self.actions| != |other.actions| || self.valueSum != other.valueSum {
          return None;
        }
    }
    var actions := MergeListInPlace(MergeAction, selfGlobal.ShieldedModifiable(), otherGlobal.ShieldedModifiable(),
                                    self.actions, other.actions);
    if actions.None? {
      return None;
    }
    var anchor := MergeOptional(self.anchor, other.anchor);
    var zkproof := MergeOptional(self.zkproof, other.zkproof);
    if anchor.None? || zkproof.None? {
      return None;
    }
    return Some(Bundle(actions.value, self.flags, valueSum, anchor.value, self.noteVersion, zkproof.value, self.bsk));
  }

  lemma BundleUpper(a: Bundle, b: Bundle, ga: Global, gb: Global)
    requires MergeBundle(a, b, ga, gb).Some?
    ensures BundleLeq(a, MergeBundle(a, b, ga, gb).value, ga)
    ensures BundleLeq(b, MergeBundle(a, b, ga, gb).value, gb)
  {
    ActionLaws();
    ListUpper(ActionLeq, MergeAction, ga.ShieldedModifiable(), gb.ShieldedModifiable(), a.actions, b.actions);
  }

  /** With an upper bound in sight, a merge fails only over the binding signature keys. */
  lemma BundleLeast(a: Bundle, b: Bundle, u: Bundle, ga: Global, gb: Global, gm: Global)
    requires BundleLeq(a, u, ga) && BundleLeq(b, u, gb)
    requires MergeGlobal(ga, gb) == Some(gm)
    ensures MergeBundle(a, b, ga, gb).Some? <==> BskCompatible(a, b)
    ensures MergeBundle(a, b, ga, gb).Some? ==> BundleLeq(MergeBundle(a, b, ga, gb).value, u, gm)
  {
    OptionLeast(a.anchor, b.anchor, u.anchor);
    OptionLeast(a.zkproof, b.zkproof, u.zkproof);
    var ma, mb := ga.ShieldedModifiable(), gb.ShieldedModifiable();
    var actions := MergeList(MergeAction, ma, mb, a.actions, b.actions);
    assert actions.Some? && ListLeq(ActionLeq, ma && mb, actions.value, u.actions) by {
      ActionLaws();
      ListLeast(ActionLeq, MergeAction, ma, mb, a.actions, b.actions, u.actions);
    }
    assert gm.ShieldedModifiable() <==> ma && mb by {
      GlobalUpper(ga, gb);
    }
  }

  lemma BundleTransitive(a: Bundle, b: Bundle, c: Bundle, ga: Global, gb: Global)
    requires GlobalLeq(ga, gb)
    requires BundleLeq(a, b, ga) && BundleLeq(b, c, gb)
    ensures BundleLeq(a, c, ga)
  {
    ActionLaws();
    ListTransitive(ActionLeq, MergeAction, ga.ShieldedModifiable(), gb.ShieldedModifiable(), a.actions, b.actions,
                   c.actions);
  }

  lemma BundleAntisymmetric(a: Bundle, b: Bundle, ga: Global, gb: Global)
    requires BundleLeq(a, b, ga) && BundleLeq(b, a, gb)
    ensures a == b.(valueSum := a.valueSum, bsk := a.bsk)
  {
    ActionLaws();
    ListAntisymmetric(ActionLeq, MergeAction, ga.ShieldedModifiable(), gb.ShieldedModifiable(), a.actions, b.actions);
  }

  /** The two sides end in the same bundle whichever of them is `self`. */
  predicate Symmetric(a: Bundle, b: Bundle) {
    a.bsk == b.bsk && (|a.actions| == |b.actions| ==> a.valueSum == b.valueSum)
  }

  lemma AssembleCommutes(a: Bundle, b: Bundle, actions: Option<seq<Action>>)
    ensures Assemble(a, b, actions).Some? <==> Assemble(b, a, actions).Some?
    ensures Assemble(a, b, actions) == Assemble(b, a, actions) <==>
            Assemble(a, b, actions).None? || Symmetric(a, b)
  {
  }

  /** Merging in the other order gives the same result exactly when the sides do not agree, or both
      sides carry the same `bsk` and lists of equal length come with equal sums. */
  lemma MergeCommutes(a: Bundle, b: Bundle, ga: Global, gb: Global)
    ensures MergeBundle(a, b, ga, gb).Some? <==> MergeBundle(b, a, gb, ga).Some?
    ensures MergeBundle(a, b, ga, gb) == MergeBundle(b, a, gb, ga) <==>
            !BundlesAgree(a, b, ga, gb) || Symmetric(a, b)
  {
    BundleSucceedsIff(a, b, ga, gb);
    var ma, mb := ga.ShieldedModifiable(), gb.ShieldedModifiable();
    ActionLaws();
    ListCommutes(ActionLeq, MergeAction, ma, mb, a.actions, b.actions);
    AssembleCommutes(a, b, MergeList(MergeAction, ma, mb, a.actions, b.actions));
  }

  lemma MergedLengths(a: Bundle, b: Bundle, ga: Global, gb: Global)
    requires MergeBundle(a, b, ga, gb).Some?
    ensures
      var c := MergeBundle(a, b, ga, gb).value;
      |c.actions| == (if |a.actions| < |b.actions| then |b.actions| else |a.actions|)
  {
  }

  /** Both groupings of three bundles take the sum and the key of the same one of them. */
  lemma GroupingTakesSameSum(a: Bundle, b: Bundle, c: Bundle, ga: Global, gb: Global, gc: Global, gab: Global,
                             gbc: Global)
    requires MergeBundle(a, b, ga, gb).Some? && MergeBundle(MergeBundle(a, b, ga, gb).value, c, gab, gc).Some?
    requires MergeBundle(b, c, gb, gc).Some? && MergeBundle(a, MergeBundle(b, c, gb, gc).value, ga, gbc).Some?
    ensures
      var left := MergeBundle(MergeBundle(a, b, ga, gb).value, c, gab, gc).value;
      var right := MergeBundle(a, MergeBundle(b, c, gb, gc).value, ga, gbc).value;
      left.valueSum == right.valueSum && left.bsk == right.bsk
  {
    MergedLengths(a, b, ga, gb);
    MergedLengths(b, c, gb, gc);
  }

  // ---------- Agreement ----------

  predicate SpendsAgree(a: Spend, b: Spend) {
    && a.SameEffects(b)
    && OptionsAgree(a.spendAuthSig, b.spendAuthSig)
    && OptionsAgree(a.recipient, b.recipient)
    && OptionsAgree(a.value, b.value)
    && OptionsAgree(a.rho, b.rho)
    && OptionsAgree(a.rseed, b.rseed)
    && OptionsAgree(a.fvk, b.fvk)
    && OptionsAgree(a.witnessPath, b.witnessPath)
    && OptionsAgree(a.alpha, b.alpha)
    && OptionsAgree(a.zip32Derivation, b.zip32Derivation)
    && OptionsAgree(a.dummySk, b.dummySk)
    && MapsAgree(a.proprietary, b.proprietary)
  }

  predicate OutputsAgree(a: Output, b: Output) {
    && a.SameEffects(b)
    && OptionsAgree(a.cmx, b.cmx)
    && OptionsAgree(a.recipient, b.recipient)
    && OptionsAgree(a.value, b.value)
    && OptionsAgree(a.rseed, b.rseed)
    && OptionsAgree(a.ock, b.ock)
    && OptionsAgree(a.zip32Derivation, b.zip32Derivation)
    && OptionsAgree(a.userAddress, b.userAddress)
    && MapsAgree(a.proprietary, b.proprietary)
  }

  predicate ActionsAgree(a: Action, b: Action) {
    && OptionsAgree(a.cvNet, b.cvNet)
    && SpendsAgree(a.spend, b.spend)
    && OutputsAgree(a.output, b.output)
    && OptionsAgree(a.rcv, b.rcv)
  }

  /** Spends merge exactly when their effects are equal and no field set on both sides differs. */
  lemma SpendSucceedsIff(a: Spend, b: Spend)
    ensures SpendsAgree(a, b) <==> MergeSpend(a, b).Some?
  {
    hide MergeOptional, OptionsAgree;
    OptionSucceedsIff(a.spendAuthSig, b.spendAuthSig);
    OptionSucceedsIff(a.recipient, b.recipient);
    OptionSucceedsIff(a.value, b.value);
    OptionSucceedsIff(a.rho, b.rho);
    OptionSucceedsIff(a.rseed, b.rseed);
    OptionSucceedsIff(a.fvk, b.fvk);
    OptionSucceedsIff(a.witnessPath, b.witnessPath);
    OptionSucceedsIff(a.alpha, b.alpha);
    OptionSucceedsIff(a.zip32Derivation, b.zip32Derivation);
    OptionSucceedsIff(a.dummySk, b.dummySk);
  }

  /** Outputs merge exactly when their effects are equal and no field set on both sides differs. */
  lemma OutputSucceedsIff(a: Output, b: Output)
    ensures OutputsAgree(a, b) <==> MergeOutput(a, b).Some?
  {
    hide MergeOptional, OptionsAgree;
    OptionSucceedsIff(a.cmx, b.cmx);
    OptionSucceedsIff(a.recipient, b.recipient);
    OptionSucceedsIff(a.value, b.value);
    OptionSucceedsIff(a.rseed, b.rseed);
    OptionSucceedsIff(a.ock, b.ock);
    OptionSucceedsIff(a.zip32Derivation, b.zip32Derivation);
    OptionSucceedsIff(a.userAddress, b.userAddress);
  }

  /** Actions merge exactly when their effects are equal and no field set on both sides differs. */
  lemma ActionSucceedsIff(a: Action, b: Action)
    ensures ActionsAgree(a, b) <==> MergeAction(a, b).Some?
  {
    hide MergeSpend, MergeOutput, SpendsAgree, OutputsAgree;
    SpendSucceedsIff(a.spend, b.spend);
    OutputSucceedsIff(a.output, b.output);
  }

  lemma SpendCoherent(a: Spend, b: Spend, c: Spend)
    requires MergeSpend(a, b).Some? && SpendsAgree(a, c) && SpendsAgree(b, c)
    ensures SpendsAgree(MergeSpend(a, b).value, c)
  {
  }

  lemma OutputCoherent(a: Output, b: Output, c: Output)
    requires MergeOutput(a, b).Some? && OutputsAgree(a, c) && OutputsAgree(b, c)
    ensures OutputsAgree(MergeOutput(a, b).value, c)
  {
  }

  lemma ActionCoherent(a: Action, b: Action, c: Action)
    requires MergeAction(a, b).Some? && ActionsAgree(a, c) && ActionsAgree(b, c)
    ensures ActionsAgree(MergeAction(a, b).value, c)
  {
    hide MergeSpend, MergeOutput, SpendsAgree, OutputsAgree;
    SpendCoherent(a.spend, b.spend, c.spend);
    OutputCoherent(a.output, b.output, c.output);
  }

  lemma AgreementDecides()
    ensures Decides(ActionsAgree, MergeAction)
  {
    forall a, b ensures ActionsAgree(a, b) <==> MergeAction(a, b).Some? {
      ActionSucceedsIff(a, b);
    }
  }

  lemma AgreementCoherent()
    ensures Coherent(ActionsAgree, MergeAction)
  {
    forall a, b, c | MergeAction(a, b).Some? && ActionsAgree(a, c) && ActionsAgree(b, c)
      ensures ActionsAgree(MergeAction(a, b).value, c)
    {
      ActionCoherent(a, b, c);
    }
  }

  predicate BundlesAgree(a: Bundle, b: Bundle, ga: Global, gb: Global) {
    && a.flags == b.flags && a.noteVersion == b.noteVersion
    && BskCompatible(a, b)
    && ListsAgree(ActionsAgree, ga.ShieldedModifiable(), gb.ShieldedModifiable(), a.actions, b.actions)
    && OptionsAgree(a.anchor, b.anchor)
    && OptionsAgree(a.zkproof, b.zkproof)
  }

  lemma BundleSucceedsIff(a: Bundle, b: Bundle, ga: Global, gb: Global)
    ensures MergeBundle(a, b, ga, gb).Some? <==> BundlesAgree(a, b, ga, gb)
  {
    hide MergeAction, ActionsAgree, MergeList, ListsAgree;
    AgreementDecides();
    ListSucceedsIff(ActionsAgree, MergeAction, ga.ShieldedModifiable(), gb.ShieldedModifiable(), a.actions, b.actions);
  }

  /** Success on the fields: in particular, once either side has a key, the lengths and the sums are equal,
      and so are the keys if both have one. */
  lemma MergeSucceedsOnFieldsIff(a: Bundle, b: Bundle, ga: Global, gb: Global)
    ensures MergeBundle(a, b, ga, gb).Some? <==>
            && a.flags == b.flags && a.noteVersion == b.noteVersion
            && (a.bsk.Some? && b.bsk.Some? ==> a.bsk.value == b.bsk.value)
            && (a.bsk.Some? || b.bsk.Some? ==> |a.actions| == |b.actions| && a.valueSum == b.valueSum)
            && (|a.actions| < |b.actions| ==> ga.txModifiable & 0x80 != 0)
            && (|b.actions| < |a.actions| ==> gb.txModifiable & 0x80 != 0)
            && (a.anchor.Some? && b.anchor.Some? ==> a.anchor.value == b.anchor.value)
            && (a.zkproof.Some? && b.zkproof.Some? ==> a.zkproof.value == b.zkproof.value)
            && forall i :: 0 <= i < |a.actions| && i < |b.actions| ==> MergeAction(a.actions[i], b.actions[i]).Some?
  {
    hide MergeAction, MergeBundle, ActionsAgree;
    BundleSucceedsIff(a, b, ga, gb);
    AgreementDecides();
  }

  /** Bundles with a key that differ only in their sums do not merge, and neither do bundles with
      different keys. */
  lemma KeysPinSums(b: Bundle, x: ValueSum, y: ValueSum, k: Option<Bytes>, l: Option<Bytes>, ga: Global, gb: Global)
    requires k.Some? || l.Some?
    requires x != y || (k.Some? && l.Some? && k != l)
    ensures MergeBundle(b.(valueSum := x, bsk := k), b.(valueSum := y, bsk := l), ga, gb).None?
  {
    hide MergeBundle;
    MergeSucceedsOnFieldsIff(b.(valueSum := x, bsk := k), b.(valueSum := y, bsk := l), ga, gb);
  }

  /** The rule on keys passes from both sides of a merge to the result. */
  lemma RulesCoherent(a: Bundle, b: Bundle, c: Bundle, ga: Global, gb: Global)
    requires MergeBundle(a, b, ga, gb).Some? && BskCompatible(a, c) && BskCompatible(b, c)
    ensures BskCompatible(MergeBundle(a, b, ga, gb).value, c)
  {
    MergedLengths(a, b, ga, gb);
  }

  /** What agrees with both sides of a merge agrees with the merged bundle. */
  lemma BundleCoherent(a: Bundle, b: Bundle, c: Bundle, ga: Global, gb: Global, gc: Global, gm: Global)
    requires MergeGlobal(ga, gb) == Some(gm) && MergeBundle(a, b, ga, gb).Some?
    requires BundlesAgree(a, c, ga, gc) && BundlesAgree(b, c, gb, gc)
    ensures BundlesAgree(MergeBundle(a, b, ga, gb).value, c, gm, gc)
  {
    hide MergeAction, ActionsAgree, MergeList, ListsAgree, BskCompatible;
    var ma, mb, mc := ga.ShieldedModifiable(), gb.ShieldedModifiable(), gc.ShieldedModifiable();
    GlobalUpper(ga, gb);
    RulesCoherent(a, b, c, ga, gb);
    AgreementDecides();
    AgreementCoherent();
    ListCoherent(ActionsAgree, MergeAction, ma, mb, mc, a.actions, b.actions, c.actions);
  }

  /** Given one grouping, the other meets the rule exactly when its inner pair does. */
  lemma RulesRegroup(a: Bundle, b: Bundle, c: Bundle, ga: Global, gb: Global, gc: Global)
    requires MergeBundle(a, b, ga, gb).Some? && MergeBundle(b, c, gb, gc).Some?
    requires BskCompatible(MergeBundle(a, b, ga, gb).value, c)
    ensures BskCompatible(a, MergeBundle(b, c, gb, gc).value)
  {
    MergedLengths(a, b, ga, gb);
    MergedLengths(b, c, gb, gc);
  }

  // ---------- What a run of merges looks like ----------

  /** Of the leader so far and the next bundle, the longer, with the key of the leader. */
  function Lead(leader: Bundle, next: Bundle): Bundle {
    if |leader.actions| < |next.actions| then next.(bsk := leader.bsk) else leader
  }

  predicate SameShape(a: Bundle, b: Bundle) {
    |a.actions| == |b.actions| && a.valueSum == b.valueSum && a.bsk == b.bsk
  }

  /** A merge has the length, the sum and the key of the leader. */
  lemma MergeHasLeaderShape(leader: Bundle, a: Bundle, b: Bundle, ga: Global, gb: Global)
    requires SameShape(leader, a) && MergeBundle(a, b, ga, gb).Some?
    ensures SameShape(Lead(leader, b), MergeBundle(a, b, ga, gb).value)
  {
    MergedLengths(a, b, ga, gb);
  }

  // ---------- The value sum ----------

  /** The net value of an action list, when each action's agreed fields determine its net value. */
  function NetTotal(net: ActionEffects -> int, actions: seq<Action>): int {
    if actions == [] then 0 else net(actions[0].Effects()) + NetTotal(net, actions[1..])
  }

  predicate SumConsistent(net: ActionEffects -> int, b: Bundle) {
    b.valueSum.Value() == NetTotal(net, b.actions)
  }

  lemma {:induction false} NetTotalByEffects(net: ActionEffects -> int, xs: seq<Action>, ys: seq<Action>)
    requires |xs| == |ys|
    requires forall i :: 0 <= i < |xs| ==> ActionLeq(xs[i], ys[i])
    ensures NetTotal(net, xs) == NetTotal(net, ys)
  {
    if xs != [] {
      assert ActionLeq(xs[0], ys[0]);
      NetTotalByEffects(net, xs[1..], ys[1..]);
    }
  }

  /** A successful merge of two bundles with correct sums has a correct sum. */
  lemma MergeKeepsSum(net: ActionEffects -> int, a: Bundle, b: Bundle, ga: Global, gb: Global)
    requires SumConsistent(net, a) && SumConsistent(net, b)
    requires MergeBundle(a, b, ga, gb).Some?
    ensures SumConsistent(net, MergeBundle(a, b, ga, gb).value)
  {
    var c := MergeBundle(a, b, ga, gb).value;
    BundleUpper(a, b, ga, gb);
    var longer := if |a.actions| < |b.actions| then b else a;
    NetTotalByEffects(net, longer.actions, c.actions);
  }
}
