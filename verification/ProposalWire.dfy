/**
 The wire form of proposals. The encoder flattens a step's three kinds of inputs into one list;
 the decoder looks every input up in the wallet and rebuilds each step against those before it.

 The wallet database, the ZIP 321 URI codec and the memo codec are parameters.
 */
module ProposalWire {
  import opened Wrappers
  import opened Common
  import opened Sums
  import opened Proposals
  import opened ProposalRuns

  type U32 = x: int | 0 <= x < 0x1_0000_0000

  // ---------- Logical proposals ----------

  datatype PolicyParts = PolicyParts(trusted: U32, untrusted: U32, allowZeroConfShielding: bool)

  /** Both counts are positive, and trusted outputs need no more confirmations than others. */
  type ConfirmationsPolicy = p: PolicyParts | 0 < p.trusted <= p.untrusted
    witness PolicyParts(1, 1, true)

  const DEFAULT_POLICY: ConfirmationsPolicy := PolicyParts(3, 10, true)

  type SproutVersion = v: int | 0 < v < 0x8000_0000 witness 1

  datatype TxVersion = Sprout(version: SproutVersion) | V3 | V4 | V5 | V6 {
    function Header(): nat {
      match this
      case Sprout(v) => v
      case V3 => 0x8000_0003
      case V4 => 0x8000_0004
      case V5 => 0x8000_0005
      case V6 => 0x8000_0006
    }
  }

  /** The only standard fee rule is ZIP 317, so it is not a field. */
  datatype Proposal = Proposal(
    minTargetHeight: U32,
    confirmationsPolicy: ConfirmationsPolicy,
    steps: seq<Step>,
    proposedVersion: Option<TxVersion>)

  // ---------- Wire structures ----------

  datatype ProposedInput =
    | NullInputValue
    | ReceivedOutput(txid: Bytes, valuePool: int, index: U32, value: nat)
    | PriorStepOutput(stepIndex: U32, paymentIndex: U32)
    | PriorStepChange(stepIndex: U32, changeIndex: U32)

  datatype PaymentOutputPool = PaymentOutputPool(paymentIndex: U32, valuePool: int)

  datatype WireChange = WireChange(value: nat, valuePool: int, memo: Option<Bytes>, isEphemeral: bool)

  datatype WireDummies = WireDummies(sapling: U32, orchard: U32, ironwood: U32)

  datatype WireBalance = WireBalance(
    proposedChange: seq<WireChange>, feeRequired: nat, dummyOutputs: Option<WireDummies>)

  datatype WireStep = WireStep(
    transactionRequest: string,
    paymentOutputPools: seq<PaymentOutputPool>,
    anchorHeight: U32,
    inputs: seq<ProposedInput>,
    balance: Option<WireBalance>,
    isShielding: bool)

  datatype WirePolicy = WirePolicy(trusted: U32, untrusted: U32, allowZeroConfShielding: bool)

  datatype FeeRule = FeeRuleNotSpecified | PreZip313 | Zip313 | Zip317

  datatype WireProposal = WireProposal(
    protoVersion: nat,
    feeRule: FeeRule,
    minTargetHeight: U32,
    steps: seq<WireStep>,
    confirmationsPolicy: Option<WirePolicy>,
    proposedVersion: Option<nat>)

  const PROPOSAL_SER_V1 := 1

  datatype DecodingError =
    | NoSteps
    | Zip321
    | NullInput(index: nat)
    | TxIdInvalid
    | ValuePoolNotSupported(id: int)
    | InputRetrieval(db: nat)
    | InputNotFound(txid: TxId, pool: PoolType, outputIndex: U32)
    | BalanceInvalid
    | MemoInvalid
    | VersionInvalid(version: nat)
    | FeeRuleNotSupported(rule: FeeRule)
    | ProposalInvalid(error: ProposalError)
    | TransparentMemo
    | InvalidEphemeralRecipient(pool: PoolType)
    | ConfirmationsPolicyInvalid
    | OrchardPaymentProhibited
    | NoShieldedAnchor
    | ProposedVersionInvalid(header: nat)

  /** What the codec relies on: the wallet database, the consensus parameters, and the codecs for
      payment requests and memos. */
  datatype Env = Env(
    utxo: (TxId, U32) -> Result<Option<Utxo>, nat>,
    note: (TxId, ShieldedPool, U32) -> Result<Option<ReceivedNote>, nat>,
    ironwoodActive: U32 -> bool,
    toUri: TransactionRequest -> string,
    fromUri: string -> Option<TransactionRequest>,
    memoToBytes: Bytes -> Bytes,
    memoFromBytes: Bytes -> Option<Bytes>)
  {
    ghost predicate CodecsFaithful() {
      && (forall r :: fromUri(toUri(r)) == Some(r))
      && (forall m :: memoFromBytes(memoToBytes(m)) == Some(m))
    }
  }

  // ---------- Encoding ----------

  function PoolId(pool: PoolType): int {
    match pool
    case Transparent => 1
    case Shielded(Sapling) => 2
    case Shielded(Orchard) => 3
    case Shielded(Ironwood) => 4
  }

  function Fits(x: nat): bool {
    x < 0x1_0000_0000
  }

  /** The indices the encoder converts to 32 bits fit; it panics otherwise. */
  predicate StepFits(s: Step) {
    && (forall k :: k in s.paymentPools ==> Fits(k))
    && UtxosFit(s.transparentInputs) && NotesFit(s.shieldedInputs) && RefsFit(s.priorStepInputs)
    && (s.anchorHeight.Some? ==> Fits(s.anchorHeight.value))
    && DummiesFit(s.balance.dummyOutputs)
  }

  predicate DummiesFit(dummies: Option<DummyOutputCounts>) {
    dummies.Some? ==> Fits(dummies.value.sapling) && Fits(dummies.value.orchard) && Fits(dummies.value.ironwood)
  }

  predicate RefFits(r: StepOutput) {
    Fits(r.stepIndex) && Fits(r.outputIndex.index)
  }

  function EncodeUtxo(u: Utxo): ProposedInput
    requires Fits(u.index)
  {
    ReceivedOutput(u.txid, PoolId(Transparent), u.index, u.value)
  }

  function EncodeNote(n: ReceivedNote): ProposedInput
    requires Fits(n.index)
  {
    ReceivedOutput(n.txid, PoolId(Shielded(n.pool)), n.index, n.value)
  }

  function EncodeRef(r: StepOutput): ProposedInput
    requires RefFits(r)
  {
    match r.outputIndex
    case PaymentIndex(i) => PriorStepOutput(r.stepIndex, i)
    case ChangeIndex(i) => PriorStepChange(r.stepIndex, i)
  }

  predicate UtxosFit(utxos: seq<Utxo>) {
    forall i :: 0 <= i < |utxos| ==> Fits(utxos[i].index)
  }

  predicate NotesFit(notes: seq<ReceivedNote>) {
    forall i :: 0 <= i < |notes| ==> Fits(notes[i].index)
  }

  predicate RefsFit(refs: seq<StepOutput>) {
    forall i :: 0 <= i < |refs| ==> RefFits(refs[i])
  }

  function EncodeUtxos(utxos: seq<Utxo>): seq<ProposedInput>
    requires UtxosFit(utxos)
  {
    seq(|utxos|, i requires 0 <= i < |utxos| => EncodeUtxo(utxos[i]))
  }

  function EncodeNotes(notes: seq<ReceivedNote>): seq<ProposedInput>
    requires NotesFit(notes)
  {
    seq(|notes|, i requires 0 <= i < |notes| => EncodeNote(notes[i]))
  }

  function EncodeRefs(refs: seq<StepOutput>): seq<ProposedInput>
    requires RefsFit(refs)
  {
    seq(|refs|, i requires 0 <= i < |refs| => EncodeRef(refs[i]))
  }

  function EncodeInputs(s: Step): seq<ProposedInput>
    requires StepFits(s)
  {
    EncodeUtxos(s.transparentInputs) + EncodeNotes(s.shieldedInputs) + EncodeRefs(s.priorStepInputs)
  }

  function EncodePool(pools: map<nat, PoolType>, key: nat): PaymentOutputPool
    requires key in pools && Fits(key)
  {
    PaymentOutputPool(key, PoolId(pools[key]))
  }

  function EncodePools(pools: map<nat, PoolType>, keys: seq<nat>): seq<PaymentOutputPool>
    requires forall i :: 0 <= i < |keys| ==> keys[i] in pools && Fits(keys[i])
  {
    seq(|keys|, i requires 0 <= i < |keys| => EncodePool(pools, keys[i]))
  }

  function EncodeChange(env: Env, c: ChangeValue): WireChange {
    var memo := if c.ShieldedChange? && c.memo.Some? then Some(env.memoToBytes(c.memo.value)) else None;
    WireChange(c.value, PoolId(c.OutputPool()), memo, c.EphemeralTransparent?)
  }

  function EncodeChanges(env: Env, change: seq<ChangeValue>): seq<WireChange> {
    seq(|change|, i requires 0 <= i < |change| => EncodeChange(env, change[i]))
  }

  function EncodeBalance(env: Env, b: TransactionBalance): WireBalance
    requires DummiesFit(b.dummyOutputs)
  {
    var dummies :=
      if b.dummyOutputs.None? then None
      else var d := b.dummyOutputs.value; Some(WireDummies(d.sapling, d.orchard, d.ironwood));
    WireBalance(EncodeChanges(env, b.proposedChange), b.feeRequired, dummies)
  }

  function EncodeStep(env: Env, s: Step): WireStep
    requires StepFits(s)
  {
    WireStep(
      env.toUri(s.request),
      EncodePools(s.paymentPools, Ascending(s.paymentPools.Keys)),
      s.anchorHeight.UnwrapOr(0),
      EncodeInputs(s),
      Some(EncodeBalance(env, s.balance)),
      s.isShielding)
  }

  predicate StepsFit(steps: seq<Step>) {
    forall i :: 0 <= i < |steps| ==> StepFits(steps[i])
  }

  function EncodeSteps(env: Env, steps: seq<Step>): seq<WireStep>
    requires StepsFit(steps)
  {
    seq(|steps|, i requires 0 <= i < |steps| => EncodeStep(env, steps[i]))
  }

  /** `Proposal::from_standard_proposal`. */
  function Encode(env: Env, p: Proposal): WireProposal
    requires StepsFit(p.steps)
  {
    WireProposal(
      PROPOSAL_SER_V1, Zip317, p.minTargetHeight,
      EncodeSteps(env, p.steps),
      Some(WirePolicy(p.confirmationsPolicy.trusted, p.confirmationsPolicy.untrusted,
                      p.confirmationsPolicy.allowZeroConfShielding)),
      if p.proposedVersion.None? then None else Some(p.proposedVersion.value.Header()))
  }

  // ---------- Decoding ----------

  /** `pool_type`. */
  function DecodePool(id: int): Result<PoolType, DecodingError> {
    if id == 1 then Ok(Transparent)
    else if id == 2 then Ok(SAPLING)
    else if id == 3 then Ok(ORCHARD)
    else if id == 4 then Ok(IRONWOOD)
    else Err(ValuePoolNotSupported(id))
  }

  /** Collected in order into a map, so that a repeated index keeps its last pool. */
  function DecodePools(pools: seq<PaymentOutputPool>): Result<map<nat, PoolType>, DecodingError> {
    if pools == [] then Ok(map[])
    else
      var front :- DecodePools(pools[..|pools| - 1]);
      var last := pools[|pools| - 1];
      var pool :- DecodePool(last.valuePool);
      Ok(front[last.paymentIndex := pool])
  }

  datatype Inputs = Inputs(transparent: seq<Utxo>, shielded: seq<ReceivedNote>, prior: seq<StepOutput>)

  /** Appends the `i`-th wire input to the list of its kind. */
  function DecodeInput(env: Env, acc: Inputs, i: nat, input: ProposedInput): Result<Inputs, DecodingError> {
    match input
    case NullInputValue => Err(NullInput(i))
    case PriorStepOutput(step, payment) => Ok(acc.(prior := acc.prior + [StepOutput(step, PaymentIndex(payment))]))
    case PriorStepChange(step, change) => Ok(acc.(prior := acc.prior + [StepOutput(step, ChangeIndex(change))]))
    case ReceivedOutput(txid, valuePool, index, _) =>
      if |txid| != 32 then Err(TxIdInvalid)
      else
        var pool :- DecodePool(valuePool);
        match pool
        case Transparent =>
          (match env.utxo(txid, index)
           case Err(e) => Err(InputRetrieval(e))
           case Ok(None) => Err(InputNotFound(txid, Transparent, index))
           case Ok(Some(u)) => Ok(acc.(transparent := acc.transparent + [u])))
        case Shielded(protocol) =>
          match env.note(txid, protocol, index)
          case Err(e) => Err(InputRetrieval(e))
          case Ok(None) => Err(InputNotFound(txid, pool, index))
          case Ok(Some(n)) => Ok(acc.(shielded := acc.shielded + [n]))
  }

  function DecodeInputs(env: Env, inputs: seq<ProposedInput>): Result<Inputs, DecodingError> {
    if inputs == [] then Ok(Inputs([], [], []))
    else
      var acc :- DecodeInputs(env, inputs[..|inputs| - 1]);
      DecodeInput(env, acc, |inputs| - 1, inputs[|inputs| - 1])
  }

  function DecodeMemo(env: Env, memo: Option<Bytes>): Result<Option<Bytes>, DecodingError> {
    if memo.None? then Ok(None)
    else
      match env.memoFromBytes(memo.value)
      case None => Err(MemoInvalid)
      case Some(m) => Ok(Some(m))
  }

  function DecodeChange(env: Env, c: WireChange): Result<ChangeValue, DecodingError> {
    if c.value > MAX_MONEY then Err(BalanceInvalid)
    else
      var memo :- DecodeMemo(env, c.memo);
      var pool :- DecodePool(c.valuePool);
      if pool.Shielded? then
        if c.isEphemeral then Err(InvalidEphemeralRecipient(pool)) else Ok(ShieldedChange(pool.pool, c.value, memo))
      else if memo.Some? then Err(TransparentMemo)
      else if c.isEphemeral then Ok(EphemeralTransparent(c.value))
      else Ok(TransparentChange(c.value))
  }

  function DecodeChanges(env: Env, change: seq<WireChange>): Result<seq<ChangeValue>, DecodingError> {
    if change == [] then Ok([])
    else
      var front :- DecodeChanges(env, change[..|change| - 1]);
      var last :- DecodeChange(env, change[|change| - 1]);
      Ok(front + [last])
  }

  function DecodeBalance(env: Env, balance: Option<WireBalance>): Result<TransactionBalance, DecodingError> {
    if balance.None? then Err(BalanceInvalid)
    else
      var change :- DecodeChanges(env, balance.value.proposedChange);
      if balance.value.feeRequired > MAX_MONEY then Err(BalanceInvalid)
      else
        match NewBalance(change, balance.value.feeRequired)
        case None => Err(BalanceInvalid)
        case Some(b) =>
          if balance.value.dummyOutputs.None? then Ok(b)
          else
            var d := balance.value.dummyOutputs.value;
            Ok(BalanceParts(b.proposedChange, b.feeRequired, b.total,
                            Some(DummyOutputCounts(d.sapling, d.orchard, d.ironwood))))
  }

  /** Settles the anchor and hands the decoded parts to `FromParts`. */
  function FinishStep(ironwoodActive: bool, prior: seq<Step>, step: WireStep, request: TransactionRequest,
                      pools: map<nat, PoolType>, inputs: Inputs, balance: TransactionBalance)
    : Result<Step, DecodingError>
  {
    if step.anchorHeight == 0 && ProducesShieldedBundle(inputs.shielded != [], pools, balance.proposedChange) then
      Err(NoShieldedAnchor)
    else
      var anchor := if step.anchorHeight == 0 then None else Some(step.anchorHeight);
      match FromParts(prior, Step(request, pools, inputs.transparent, inputs.shielded, anchor, inputs.prior, balance,
                                  step.isShielding), ironwoodActive)
      case Err(e) => Err(ProposalInvalid(e))
      case Ok(s) => Ok(s)
  }

  /** Decodes one step against the steps decoded before it. */
  function DecodeStep(env: Env, ironwoodActive: bool, prior: seq<Step>, step: WireStep): Result<Step, DecodingError> {
    if env.fromUri(step.transactionRequest).None? then Err(Zip321)
    else
      var pools :- DecodePools(step.paymentOutputPools);
      if ironwoodActive && exists k :: k in pools && pools[k] == ORCHARD then Err(OrchardPaymentProhibited)
      else
        var inputs :- DecodeInputs(env, step.inputs);
        var balance :- DecodeBalance(env, step.balance);
        FinishStep(ironwoodActive, prior, step, env.fromUri(step.transactionRequest).value, pools, inputs, balance)
  }

  function DecodeSteps(env: Env, ironwoodActive: bool, steps: seq<WireStep>): Result<seq<Step>, DecodingError> {
    if steps == [] then Ok([])
    else
      var prior :- DecodeSteps(env, ironwoodActive, steps[..|steps| - 1]);
      var last :- DecodeStep(env, ironwoodActive, prior, steps[|steps| - 1]);
      Ok(prior + [last])
  }

  function DecodePolicy(policy: Option<WirePolicy>): Result<ConfirmationsPolicy, DecodingError> {
    if policy.None? then Ok(DEFAULT_POLICY)
    else if || policy.value.trusted == 0 || policy.value.untrusted == 0
            || policy.value.trusted > policy.value.untrusted
    then
      Err(ConfirmationsPolicyInvalid)
    else Ok(PolicyParts(policy.value.trusted, policy.value.untrusted, policy.value.allowZeroConfShielding))
  }

  function DecodeVersion(header: Option<nat>): Result<Option<TxVersion>, DecodingError> {
    if header.None? then Ok(None)
    else if header.value == V5.Header() then Ok(Some(V5))
    else if header.value == V6.Header() then Ok(Some(V6))
    else Err(ProposedVersionInvalid(header.value))
  }

  function Decode(env: Env, p: WireProposal): Result<Proposal, DecodingError> {
    if p.protoVersion != PROPOSAL_SER_V1 then Err(VersionInvalid(p.protoVersion))
    else if p.feeRule != Zip317 then Err(FeeRuleNotSupported(p.feeRule))
    else
      var steps :- DecodeSteps(env, env.ironwoodActive(p.minTargetHeight), p.steps);
      var policy :- DecodePolicy(p.confirmationsPolicy);
      var version :- DecodeVersion(p.proposedVersion);
      if steps == [] then Err(NoSteps)
      else
        match CheckSteps(steps, 0, {}, {})
        case Some(e) => Err(ProposalInvalid(e))
        case None => Ok(Proposal(p.minTargetHeight, policy, steps, version))
  }

  /** The input loop of `try_into_standard_proposal`, pushing onto three lists. */
  method DecodeInputLists(env: Env, inputs: seq<ProposedInput>) returns (r: Result<Inputs, DecodingError>)
    ensures r == DecodeInputs(env, inputs)
  {
    var acc := Inputs([], [], []);
    var i := 0;
    while i < |inputs|
      invariant 0 <= i <= |inputs|
      invariant DecodeInputs(env, inputs[..i]) == Ok(acc)
    {
      assert inputs[..i + 1][..i] == inputs[..i];
      var next := DecodeInput(env, acc, i, inputs[i]);
      if next.Err? {
        InputFailureSticks(env, inputs, i + 1);
        return Err(next.error);
      }
      acc := next.value;
      i := i + 1;
    }
    assert inputs[..i] == inputs;
    return Ok(acc);
  }

  lemma {:induction false} InputFailureSticks(env: Env, inputs: seq<ProposedInput>, n: nat)
    requires n <= |inputs| && DecodeInputs(env, inputs[..n]).Err?
    ensures DecodeInputs(env, inputs) == DecodeInputs(env, inputs[..n])
  {
    if n == |inputs| {
      assert inputs[..n] == inputs;
    } else {
      assert inputs[..|inputs| - 1][..n] == inputs[..n];
      InputFailureSticks(env, inputs[..|inputs| - 1], n);
    }
  }

  lemma {:induction false} StepFailureSticks(env: Env, active: bool, steps: seq<WireStep>, n: nat)
    requires n <= |steps| && DecodeSteps(env, active, steps[..n]).Err?
    ensures DecodeSteps(env, active, steps) == DecodeSteps(env, active, steps[..n])
  {
    if n == |steps| {
      assert steps[..n] == steps;
    } else {
      assert steps[..|steps| - 1][..n] == steps[..n];
      StepFailureSticks(env, active, steps[..|steps| - 1], n);
    }
  }

  /** The body of the step loop. */
  method DecodeOneStep(env: Env, ironwoodActive: bool, prior: seq<Step>, step: WireStep)
    returns (r: Result<Step, DecodingError>)
    ensures r == DecodeStep(env, ironwoodActive, prior, step)
  {
    var request := env.fromUri(step.transactionRequest);
    if request.None? {
      return Err(Zip321);
    }
    var pools := DecodePools(step.paymentOutputPools);
    if pools.Err? {
      return Err(pools.error);
    }
    if ironwoodActive && exists k :: k in pools.value && pools.value[k] == ORCHARD {
      return Err(OrchardPaymentProhibited);
    }
    var inputs := DecodeInputLists(env, step.inputs);
    if inputs.Err? {
      return Err(inputs.error);
    }
    var balance := DecodeBalance(env, step.balance);
    if balance.Err? {
      return Err(balance.error);
    }
    return FinishStep(ironwoodActive, prior, step, request.value, pools.value, inputs.value, balance.value);
  }

  /** The step loop of `try_into_standard_proposal`, pushing each decoded step. */
  method DecodeStepList(env: Env, active: bool, wire: seq<WireStep>) returns (r: Result<seq<Step>, DecodingError>)
    ensures r == DecodeSteps(env, active, wire)
  {
    hide DecodeStep;
    var steps: seq<Step> := [];
    var i := 0;
    while i < |wire|
      invariant 0 <= i <= |wire|
      invariant DecodeSteps(env, active, wire[..i]) == Ok(steps)
    {
      assert wire[..i + 1][..i] == wire[..i];
      var step := DecodeOneStep(env, active, steps, wire[i]);
      if step.Err? {
        StepFailureSticks(env, active, wire, i + 1);
        return Err(step.error);
      }
      steps := steps + [step.value];
      i := i + 1;
    }
    assert wire[..i] == wire;
    return Ok(steps);
  }

  /** `Proposal::try_into_standard_proposal`. */
  method TryIntoStandardProposal(env: Env, p: WireProposal) returns (r: Result<Proposal, DecodingError>)
    ensures r == Decode(env, p)
  {
    if p.protoVersion != PROPOSAL_SER_V1 {
      return Err(VersionInvalid(p.protoVersion));
    }
    if p.feeRule != Zip317 {
      return Err(FeeRuleNotSupported(p.feeRule));
    }
    var steps := DecodeStepList(env, env.ironwoodActive(p.minTargetHeight), p.steps);
    if steps.Err? {
      return Err(steps.error);
    }
    var policy := DecodePolicy(p.confirmationsPolicy);
    if policy.Err? {
      return Err(policy.error);
    }
    var version := DecodeVersion(p.proposedVersion);
    if version.Err? {
      return Err(version.error);
    }
    if steps.value == [] {
      return Err(NoSteps);
    }
    var fault := MultiStep(steps.value);
    if fault.Some? {
      return Err(ProposalInvalid(fault.value));
    }
    return Ok(Proposal(p.minTargetHeight, policy.value, steps.value, version.value));
  }

  // ---------- What decoding guarantees ----------

  lemma FinishedStepIsBuilt(ironwoodActive: bool, prior: seq<Step>, step: WireStep, request: TransactionRequest,
                            pools: map<nat, PoolType>, inputs: Inputs, balance: TransactionBalance)
    requires FinishStep(ironwoodActive, prior, step, request, pools, inputs, balance).Ok?
    ensures
      var s := FinishStep(ironwoodActive, prior, step, request, pools, inputs, balance).value;
      Built(ironwoodActive, prior, s) && s.anchorHeight != Some(0)
  {
    hide FromParts, ProducesShieldedBundle;
    var anchor := if step.anchorHeight == 0 then None else Some(step.anchorHeight);
    var parts := Step(request, pools, inputs.transparent, inputs.shielded, anchor, inputs.prior, balance,
                      step.isShielding);
    AcceptanceReturnsTheParts(prior, parts, ironwoodActive);
  }

  lemma DecodedStepIsBuilt(env: Env, ironwoodActive: bool, prior: seq<Step>, step: WireStep)
    requires DecodeStep(env, ironwoodActive, prior, step).Ok?
    ensures Built(ironwoodActive, prior, DecodeStep(env, ironwoodActive, prior, step).value)
    ensures DecodeStep(env, ironwoodActive, prior, step).value.anchorHeight != Some(0)
  {
    hide Built, FinishStep, DecodePools, DecodeInputs, DecodeBalance;
    FinishedStepIsBuilt(ironwoodActive, prior, step, env.fromUri(step.transactionRequest).value,
                        DecodePools(step.paymentOutputPools).value, DecodeInputs(env, step.inputs).value,
                        DecodeBalance(env, step.balance).value);
  }

  lemma {:induction false} DecodedStepsAreBuilt(env: Env, active: bool, wire: seq<WireStep>)
    requires DecodeSteps(env, active, wire).Ok?
    ensures WellBuilt(active, DecodeSteps(env, active, wire).value)
    ensures NoZeroAnchor(DecodeSteps(env, active, wire).value)
  {
    hide Built, DecodeStep;
    if wire != [] {
      var prior := DecodeSteps(env, active, wire[..|wire| - 1]).value;
      DecodedStepsAreBuilt(env, active, wire[..|wire| - 1]);
      DecodedStepIsBuilt(env, active, prior, wire[|wire| - 1]);
      var steps := DecodeSteps(env, active, wire).value;
      assert steps[..|steps| - 1] == prior;
    }
  }

  predicate NoZeroAnchor(steps: seq<Step>) {
    forall i :: 0 <= i < |steps| ==> steps[i].anchorHeight != Some(0)
  }

  lemma DecodedParts(env: Env, wire: WireProposal)
    requires Decode(env, wire).Ok?
    ensures
      var p := Decode(env, wire).value;
      && p.minTargetHeight == wire.minTargetHeight
      && DecodeSteps(env, env.ironwoodActive(p.minTargetHeight), wire.steps) == Ok(p.steps)
      && DecodeVersion(wire.proposedVersion) == Ok(p.proposedVersion)
      && p.steps != []
      && CheckSteps(p.steps, 0, {}, {}).None?
  {
    hide DecodeSteps, CheckSteps, DecodePolicy, DecodeVersion;
  }

  /** Whatever bytes it came from, a decoded proposal is valid: it conserves value, spends nothing
      twice, and respects the turnstile at its target height. */
  lemma DecodedIsValid(env: Env, wire: WireProposal)
    requires Decode(env, wire).Ok?
    ensures
      var p := Decode(env, wire).value;
      && Valid(env.ironwoodActive(p.minTargetHeight), p.steps)
      && SumOf(ChainTotal, p.steps) == SumOf(Fee, p.steps) + SumSet(ValueIn(p.steps), FinalOutputs(p.steps))
      && NoDuplicates(AllPriorRefs(p.steps)) && NoDuplicates(AllChainRefs(p.steps))
  {
    hide Decode, DecodeSteps, CheckSteps, WellBuilt, SumOf, NoDuplicates, AllPriorRefs, AllChainRefs;
    DecodedParts(env, wire);
    var p := Decode(env, wire).value;
    var active := env.ironwoodActive(p.minTargetHeight);
    DecodedStepsAreBuilt(env, active, wire.steps);
    ProposalConservesValue(active, p.steps);
    ProposalSpendsOnce(active, p.steps);
  }
}
