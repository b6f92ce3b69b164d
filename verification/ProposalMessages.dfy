/** Which messages decode to a proposal, said on the fields of the message. */
module ProposalMessages {
  import opened Wrappers
  import opened Sums
  import opened Proposals
  import opened ProposalRuns
  import opened ProposalWire
  import opened ProposalRoundTrips

  /** Pools are numbered one to four: transparent, Sapling, Orchard, Ironwood. */
  predicate PoolNumber(id: int) {
    1 <= id <= 4
  }

  lemma PoolNumbers(id: int)
    ensures DecodePool(id).Ok? <==> PoolNumber(id)
    ensures DecodePool(id) == Ok(Transparent) <==> id == 1
    ensures DecodePool(id) == Ok(Shielded(Sapling)) <==> id == 2
    ensures DecodePool(id) == Ok(Shielded(Orchard)) <==> id == 3
    ensures DecodePool(id) == Ok(Shielded(Ironwood)) <==> id == 4
    ensures !PoolNumber(id) ==> DecodePool(id) == Err(ValuePoolNotSupported(id))
  {
  }

  predicate PoolsNumbered(pools: seq<PaymentOutputPool>) {
    forall i :: 0 <= i < |pools| ==> PoolNumber(pools[i].valuePool)
  }

  lemma {:induction false} DecodePoolsIff(pools: seq<PaymentOutputPool>)
    ensures DecodePools(pools).Ok? <==> PoolsNumbered(pools)
  {
    if pools != [] {
      var n := |pools| - 1;
      var front := pools[..n];
      assert forall i :: 0 <= i < n ==> front[i] == pools[i];
      DecodePoolsIff(front);
      PoolNumbers(pools[n].valuePool);
      assert PoolsNumbered(pools) <==> PoolsNumbered(front) && PoolNumber(pools[n].valuePool);
    }
  }

  /** Entry `i` is the last one for its payment. */
  ghost predicate IsLastPool(pools: seq<PaymentOutputPool>, i: nat) {
    && i < |pools|
    && forall j :: i < j < |pools| ==> pools[j].paymentIndex != pools[i].paymentIndex
  }

  /** A payment named more than once goes to the pool named last. */
  lemma {:induction false} LastPoolCounts(pools: seq<PaymentOutputPool>, i: nat)
    requires DecodePools(pools).Ok? && IsLastPool(pools, i)
    ensures
      var (k, decoded) := (pools[i].paymentIndex, DecodePools(pools).value);
      k in decoded && DecodePool(pools[i].valuePool) == Ok(decoded[k])
  {
    hide DecodePool;
    var n := |pools| - 1;
    if i < n {
      assert pools[n].paymentIndex != pools[i].paymentIndex;
      LastPoolCounts(pools[..n], i);
    }
  }

  /** Only payments that are named have a pool. */
  lemma {:induction false} NamedPaymentsOnly(pools: seq<PaymentOutputPool>, k: nat)
    requires DecodePools(pools).Ok? && k in DecodePools(pools).value
    ensures exists i :: 0 <= i < |pools| && pools[i].paymentIndex == k
  {
    hide DecodePool;
    var n := |pools| - 1;
    if pools[n].paymentIndex != k {
      NamedPaymentsOnly(pools[..n], k);
      var i :| 0 <= i < n && pools[..n][i].paymentIndex == k;
      assert pools[i].paymentIndex == k;
    }
  }

  /** An input names an output of an earlier step, or a transaction of 32 bytes, a pool and an output that the
      wallet has. */
  predicate InputKnown(env: Env, input: ProposedInput) {
    match input
    case NullInputValue => false
    case PriorStepOutput(_, _) => true
    case PriorStepChange(_, _) => true
    case ReceivedOutput(txid, pool, index, _) =>
      && |txid| == 32
      && ((pool == 1 && env.utxo(txid, index).Ok? && env.utxo(txid, index).value.Some?)
          || (pool == 2 && env.note(txid, Sapling, index).Ok? && env.note(txid, Sapling, index).value.Some?)
          || (pool == 3 && env.note(txid, Orchard, index).Ok? && env.note(txid, Orchard, index).value.Some?)
          || (pool == 4 && env.note(txid, Ironwood, index).Ok? && env.note(txid, Ironwood, index).value.Some?))
  }

  predicate InputsKnown(env: Env, inputs: seq<ProposedInput>) {
    forall i :: 0 <= i < |inputs| ==> InputKnown(env, inputs[i])
  }

  lemma DecodeInputIff(env: Env, acc: Inputs, i: nat, input: ProposedInput)
    ensures DecodeInput(env, acc, i, input).Ok? <==> InputKnown(env, input)
  {
    if input.ReceivedOutput? {
      PoolNumbers(input.valuePool);
    }
  }

  lemma {:induction false} DecodeInputsIff(env: Env, inputs: seq<ProposedInput>)
    ensures DecodeInputs(env, inputs).Ok? <==> InputsKnown(env, inputs)
  {
    if inputs != [] {
      hide DecodeInput, InputKnown;
      var n := |inputs| - 1;
      var front := inputs[..n];
      assert forall i :: 0 <= i < n ==> front[i] == inputs[i];
      DecodeInputsIff(env, front);
      if DecodeInputs(env, front).Ok? {
        DecodeInputIff(env, DecodeInputs(env, front).value, n, inputs[n]);
      }
      assert InputsKnown(env, inputs) <==> InputsKnown(env, front) && InputKnown(env, inputs[n]);
    }
  }

  /** Change is in range, to a known pool, with a memo that can be read only if shielded and marked ephemeral
      only if transparent. */
  predicate ChangeReadable(env: Env, c: WireChange) {
    && c.value <= MAX_MONEY
    && PoolNumber(c.valuePool)
    && (c.memo.Some? ==> c.valuePool != 1 && env.memoFromBytes(c.memo.value).Some?)
    && (c.isEphemeral ==> c.valuePool == 1)
  }

  predicate ChangesReadable(env: Env, change: seq<WireChange>) {
    forall i :: 0 <= i < |change| ==> ChangeReadable(env, change[i])
  }

  function WireAmount(c: WireChange): nat {
    c.value
  }

  lemma DecodeChangeIff(env: Env, c: WireChange)
    ensures DecodeChange(env, c).Ok? <==> ChangeReadable(env, c)
    ensures DecodeChange(env, c).Ok? ==> DecodeChange(env, c).value.value == c.value
  {
    PoolNumbers(c.valuePool);
  }

  lemma {:induction false} DecodeChangesIff(env: Env, change: seq<WireChange>)
    ensures DecodeChanges(env, change).Ok? <==> ChangesReadable(env, change)
  {
    if change != [] {
      hide DecodeChange, ChangeReadable;
      var n := |change| - 1;
      var front := change[..n];
      assert forall i :: 0 <= i < n ==> front[i] == change[i];
      DecodeChangesIff(env, front);
      DecodeChangeIff(env, change[n]);
      assert ChangesReadable(env, change) <==> ChangesReadable(env, front) && ChangeReadable(env, change[n]);
    }
  }

  lemma {:induction false} DecodedChangeSum(env: Env, change: seq<WireChange>)
    requires DecodeChanges(env, change).Ok?
    ensures SumOf(ChangeAmount, DecodeChanges(env, change).value) == SumOf(WireAmount, change)
  {
    if change != [] {
      hide DecodeChange;
      var n := |change| - 1;
      DecodedChangeSum(env, change[..n]);
      DecodeChangeIff(env, change[n]);
      var values := DecodeChanges(env, change[..n]).value;
      assert (values + [DecodeChange(env, change[n]).value])[..|values|] == values;
    }
  }

  /** There is a balance, its change can be read, and change and fee together are in range. */
  predicate BalanceReadable(env: Env, b: Option<WireBalance>) {
    && b.Some?
    && ChangesReadable(env, b.value.proposedChange)
    && SumOf(WireAmount, b.value.proposedChange) + b.value.feeRequired <= MAX_MONEY
  }

  lemma DecodeBalanceIff(env: Env, b: Option<WireBalance>)
    ensures DecodeBalance(env, b).Ok? <==> BalanceReadable(env, b)
  {
    if b.Some? {
      hide ChangesReadable, DecodeChanges, SumOf;
      DecodeChangesIff(env, b.value.proposedChange);
      if DecodeChanges(env, b.value.proposedChange).Ok? {
        DecodedChangeSum(env, b.value.proposedChange);
      }
    }
  }

  predicate StepReadable(env: Env, w: WireStep) {
    && env.fromUri(w.transactionRequest).Some?
    && PoolsNumbered(w.paymentOutputPools)
    && InputsKnown(env, w.inputs)
    && BalanceReadable(env, w.balance)
  }

  /** The step a readable message describes; an anchor height of zero means none. */
  function StepOf(env: Env, w: WireStep): Step
    requires StepReadable(env, w)
  {
    DecodePoolsIff(w.paymentOutputPools);
    DecodeInputsIff(env, w.inputs);
    DecodeBalanceIff(env, w.balance);
    StepParts(env, w)
  }

  /** A step decodes exactly when it is readable and would be accepted, and to the step it describes. */
  lemma DecodeStepIff(env: Env, active: bool, prior: seq<Step>, w: WireStep)
    ensures DecodeStep(env, active, prior, w).Ok? <==>
            StepReadable(env, w) && Built(active, prior, StepOf(env, w))
    ensures DecodeStep(env, active, prior, w).Ok? ==> DecodeStep(env, active, prior, w).value == StepOf(env, w)
  {
    hide DecodePools, DecodeInputs, DecodeBalance, FromParts, PoolsNumbered, InputsKnown, BalanceReadable;
    DecodePoolsIff(w.paymentOutputPools);
    DecodeInputsIff(env, w.inputs);
    DecodeBalanceIff(env, w.balance);
    if StepReadable(env, w) {
      var parts := StepParts(env, w);
      if FromParts(prior, parts, active).Ok? {
        AcceptanceReturnsTheParts(prior, parts, active);
        StepAcceptedOnFieldsIff(active, prior, parts);
        BuiltMeansChecksPass(active, prior, parts);
      }
    }
  }

  /** The steps of the message are readable, describe the given steps, and each would be accepted against
      those before it. */
  ghost predicate StepsDescribed(env: Env, active: bool, wire: seq<WireStep>, steps: seq<Step>) {
    && |steps| == |wire|
    && forall i :: 0 <= i < |wire| ==>
         StepReadable(env, wire[i]) && steps[i] == StepOf(env, wire[i]) && Built(active, steps[..i], steps[i])
  }

  lemma StepsDescribedStep(env: Env, active: bool, wire: seq<WireStep>, steps: seq<Step>)
    requires |steps| == |wire| > 0
    ensures
      var n := |wire| - 1;
      StepsDescribed(env, active, wire, steps) <==>
      && StepsDescribed(env, active, wire[..n], steps[..n])
      && StepReadable(env, wire[n]) && steps[n] == StepOf(env, wire[n]) && Built(active, steps[..n], steps[n])
  {
    hide StepReadable, StepOf, Built;
    var n := |wire| - 1;
    forall i | 0 <= i < n
      ensures wire[..n][i] == wire[i] && steps[..n][i] == steps[i] && steps[..n][..i] == steps[..i]
    {
    }
  }

  lemma {:induction false} DecodeStepsIff(env: Env, active: bool, wire: seq<WireStep>, steps: seq<Step>)
    ensures DecodeSteps(env, active, wire) == Ok(steps) <==> StepsDescribed(env, active, wire, steps)
  {
    hide StepReadable, StepOf, Built, DecodeStep;
    if wire == [] {
      assert |steps| == 0 ==> steps == [];
    } else {
      var n := |wire| - 1;
      if |steps| == |wire| {
        DecodeStepsIff(env, active, wire[..n], steps[..n]);
        StepsDescribedStep(env, active, wire, steps);
        DecodeStepIff(env, active, steps[..n], wire[n]);
        assert steps == steps[..n] + [steps[n]];
      }
      if DecodeSteps(env, active, wire) == Ok(steps) {
        var prior := DecodeSteps(env, active, wire[..n]).value;
        assert steps[..|prior|] == prior;
        DecodeStepsIff(env, active, wire[..n], prior);
      }
    }
  }

  /** The confirmations asked for: three and ten if the message says nothing. */
  predicate PolicyDescribed(w: Option<WirePolicy>, p: ConfirmationsPolicy) {
    if w.None? then p == PolicyParts(3, 10, true)
    else
      && 0 < w.value.trusted <= w.value.untrusted
      && p == PolicyParts(w.value.trusted, w.value.untrusted, w.value.allowZeroConfShielding)
  }

  predicate VersionDescribed(header: Option<nat>, version: Option<TxVersion>) {
    || (header == None && version == None)
    || (header == Some(0x8000_0005) && version == Some(V5))
    || (header == Some(0x8000_0006) && version == Some(V6))
  }

  /** A message decodes to a proposal exactly when it has serialization version one and the ZIP 317 fee rule,
      describes the proposal's steps, policy and version, has a step, and spends nothing twice. */
  lemma DecodeIff(env: Env, w: WireProposal, p: Proposal)
    ensures Decode(env, w) == Ok(p) <==>
            && w.protoVersion == 1 && w.feeRule == Zip317
            && p.minTargetHeight == w.minTargetHeight
            && StepsDescribed(env, env.ironwoodActive(w.minTargetHeight), w.steps, p.steps)
            && PolicyDescribed(w.confirmationsPolicy, p.confirmationsPolicy)
            && VersionDescribed(w.proposedVersion, p.proposedVersion)
            && p.steps != []
            && RefsInBounds(p.steps) && OutputsUsedOnce(p.steps) && UtxosSpentOnce(p.steps) && NotesSpentOnce(p.steps)
  {
    hide StepsDescribed, RefsInBounds, OutputsUsedOnce, UtxosSpentOnce, NotesSpentOnce, CheckSteps, DecodeSteps;
    DecodeStepsIff(env, env.ironwoodActive(w.minTargetHeight), w.steps, p.steps);
    ProposalPassesIff(p.steps);
  }
}
