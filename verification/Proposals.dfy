/**
 Transaction proposals: a series of transactions in which later steps may spend what earlier
 steps create. `FromParts` validates one step against its predecessors, `MultiStep` the whole.
 */
module Proposals {
  import opened Wrappers
  import opened Common
  import opened Sums

  type TxId = b: Bytes | |b| == 32 witness seq(32, _ => 0)

  datatype ShieldedPool = Sapling | Orchard | Ironwood

  datatype PoolType = Transparent | Shielded(pool: ShieldedPool)

  const SAPLING := Shielded(Sapling)
  const ORCHARD := Shielded(Orchard)
  const IRONWOOD := Shielded(Ironwood)

  /** Where an output is on the chain. */
  datatype OutputRef = OutputRef(txid: TxId, pool: PoolType, index: nat)

  /** A transparent output of the wallet; `details` stands for its script and metadata. */
  datatype Utxo = Utxo(txid: TxId, index: nat, value: Zatoshis, details: Bytes)

  /** A note of the wallet; `details` stands for its key material and position. */
  datatype ReceivedNote = ReceivedNote(txid: TxId, index: nat, pool: ShieldedPool, value: Zatoshis, details: Bytes)

  /** A requested payment; `receivers` are the pools its address can receive in. */
  datatype Payment = Payment(receivers: set<PoolType>, amount: Option<Zatoshis>, details: Bytes)

  type TransactionRequest = map<nat, Payment>

  datatype ChangeValue =
    | ShieldedChange(protocol: ShieldedPool, value: Zatoshis, memo: Option<Bytes>)
    | EphemeralTransparent(value: Zatoshis)
    | TransparentChange(value: Zatoshis)
  {
    function OutputPool(): PoolType {
      if ShieldedChange? then Shielded(protocol) else Transparent
    }
  }

  datatype DummyOutputCounts = DummyOutputCounts(sapling: nat, orchard: nat, ironwood: nat)

  datatype BalanceParts = BalanceParts(
    proposedChange: seq<ChangeValue>,
    feeRequired: Zatoshis,
    total: Zatoshis,
    dummyOutputs: Option<DummyOutputCounts>)

  /** A balance caches the sum of its change and fee. */
  type TransactionBalance = b: BalanceParts | b.total == SumOf(ChangeAmount, b.proposedChange) + b.feeRequired
    witness BalanceParts([], 0, 0, None)

  function ChangeAmount(c: ChangeValue): nat {
    c.value
  }

  /** `TransactionBalance::new`. */
  function NewBalance(change: seq<ChangeValue>, fee: Zatoshis): (r: Option<TransactionBalance>)
    ensures r.Some? <==> SumOf(ChangeAmount, change) + fee <= MAX_MONEY
    ensures r.Some? ==> r.value.proposedChange == change && r.value.feeRequired == fee && r.value.dummyOutputs.None?
  {
    CheckedSumMeaning(ChangeAmount, change);
    var changeTotal :- CheckedSum(ChangeAmount, change);
    var total :- CheckedAdd(changeTotal, fee);
    Some(BalanceParts(change, fee, total, None))
  }

  datatype StepOutputIndex = PaymentIndex(index: nat) | ChangeIndex(index: nat)

  datatype StepOutput = StepOutput(stepIndex: nat, outputIndex: StepOutputIndex)

  /** The inputs and outputs of one transaction. No shielded inputs at all is the empty list. */
  datatype Step = Step(
    request: TransactionRequest,
    paymentPools: map<nat, PoolType>,
    transparentInputs: seq<Utxo>,
    shieldedInputs: seq<ReceivedNote>,
    anchorHeight: Option<nat>,
    priorStepInputs: seq<StepOutput>,
    balance: TransactionBalance,
    isShielding: bool)

  datatype ProposalError =
    | RequestTotalInvalid
    | Overflow
    | BalanceError(inputTotal: Zatoshis, outputTotal: Zatoshis)
    | ShieldingInvalid
    | MissingShieldedAnchor
    | ReferenceError(reference: StepOutput)
    | StepDoubleSpend(reference: StepOutput)
    | ChainDoubleSpend(output: OutputRef)
    | PaymentPoolsMismatch
    | PaymentAmountMissing(index: nat)
    | OrchardPoolValueCreation(inputTotal: Zatoshis, outputTotal: Zatoshis)
    | OrchardPoolPayment(index: nat)

  // ---------- Amounts ----------

  function UtxoValue(u: Utxo): nat {
    u.value
  }

  function NoteValue(n: ReceivedNote): nat {
    n.value
  }

  function PaymentAmount(p: Payment): nat {
    p.amount.UnwrapOr(0)
  }

  function AmountAt(request: TransactionRequest, index: nat): nat {
    if index in request then PaymentAmount(request[index]) else 0
  }

  function RequestAmount(request: TransactionRequest): nat -> nat {
    index => AmountAt(request, index)
  }

  function ChainTotal(s: Step): nat {
    SumOf(UtxoValue, s.transparentInputs) + SumOf(NoteValue, s.shieldedInputs)
  }

  function RequestTotal(request: TransactionRequest): nat {
    SumOf(RequestAmount(request), Ascending(request.Keys))
  }

  function PaymentTotal(s: Step): nat {
    RequestTotal(s.request)
  }

  function ChangeTotal(s: Step): nat {
    SumOf(ChangeAmount, s.balance.proposedChange)
  }

  function Fee(s: Step): nat {
    s.balance.feeRequired
  }

  function NotesIn(pool: ShieldedPool, notes: seq<ReceivedNote>): seq<ReceivedNote> {
    if notes == [] then []
    else
      var front := NotesIn(pool, notes[..|notes| - 1]);
      if notes[|notes| - 1].pool == pool then front + [notes[|notes| - 1]] else front
  }

  function ChangeIn(pool: PoolType, change: seq<ChangeValue>): seq<ChangeValue> {
    if change == [] then []
    else
      var front := ChangeIn(pool, change[..|change| - 1]);
      if change[|change| - 1].OutputPool() == pool then front + [change[|change| - 1]] else front
  }

  // ---------- Validating one step ----------

  predicate Deliverable(payment: Payment, pool: PoolType) {
    pool in payment.receivers || (pool == IRONWOOD && ORCHARD in payment.receivers)
  }

  function PaymentError(request: TransactionRequest, pools: map<nat, PoolType>, index: nat): Option<ProposalError>
    requires index in pools
  {
    if index !in request || !Deliverable(request[index], pools[index]) then Some(PaymentPoolsMismatch)
    else if request[index].amount.None? then Some(PaymentAmountMissing(index))
    else None
  }

  /** The first fault found when walking the payment pools in key order. */
  function FirstPaymentError(request: TransactionRequest, pools: map<nat, PoolType>, keys: seq<nat>)
    : Option<ProposalError>
    requires forall k :: k in keys ==> k in pools
  {
    if keys == [] then None
    else if PaymentError(request, pools, keys[0]).Some? then PaymentError(request, pools, keys[0])
    else FirstPaymentError(request, pools, keys[1..])
  }

  function FirstInPool(pools: map<nat, PoolType>, pool: PoolType, keys: seq<nat>): Option<nat>
    requires forall k :: k in keys ==> k in pools
  {
    if keys == [] then None
    else if pools[keys[0]] == pool then Some(keys[0])
    else FirstInPool(pools, pool, keys[1..])
  }

  function PriorValue(prior: seq<Step>, r: StepOutput): Result<Zatoshis, ProposalError> {
    if r.stepIndex >= |prior| then Err(ReferenceError(r))
    else
      var step := prior[r.stepIndex];
      match r.outputIndex
      case PaymentIndex(i) =>
        if i !in step.request then Err(ReferenceError(r))
        else if step.request[i].amount.None? then Err(PaymentAmountMissing(i))
        else Ok(step.request[i].amount.value)
      case ChangeIndex(i) =>
        if i >= |step.balance.proposedChange| then Err(ReferenceError(r))
        else Ok(step.balance.proposedChange[i].value)
  }

  function PriorValues(prior: seq<Step>, refs: seq<StepOutput>): Result<seq<Zatoshis>, ProposalError> {
    if refs == [] then Ok([])
    else
      var head :- PriorValue(prior, refs[0]);
      var tail :- PriorValues(prior, refs[1..]);
      Ok([head] + tail)
  }

  function Identity(z: Zatoshis): nat {
    z
  }

  predicate IsShieldedPool(pool: PoolType) {
    pool.Shielded?
  }

  /** Whether a step spends shielded notes, pays to a shielded pool, or returns shielded change. */
  predicate ProducesShieldedBundle(hasShieldedInputs: bool, pools: map<nat, PoolType>, change: seq<ChangeValue>) {
    || hasShieldedInputs
    || (exists k :: k in pools && IsShieldedPool(pools[k]))
    || (exists i :: 0 <= i < |change| && IsShieldedPool(change[i].OutputPool()))
  }

  function OrErr<T>(o: Option<T>, e: ProposalError): Result<T, ProposalError> {
    if o.Some? then Ok(o.value) else Err(e)
  }

  /** The Orchard turnstile, checked once Ironwood is active. */
  function TurnstileError(pools: map<nat, PoolType>, notes: seq<ReceivedNote>, change: seq<ChangeValue>)
    : Option<ProposalError>
  {
    var offending := FirstInPool(pools, ORCHARD, Ascending(pools.Keys));
    if offending.Some? then Some(OrchardPoolPayment(offending.value))
    else
      var inputTotal := CheckedSum(NoteValue, NotesIn(Orchard, notes));
      var changeTotal := CheckedSum(ChangeAmount, ChangeIn(ORCHARD, change));
      if inputTotal.None? || changeTotal.None? then Some(Overflow)
      else if changeTotal.value > 0 && changeTotal.value >= inputTotal.value then
        Some(OrchardPoolValueCreation(inputTotal.value, changeTotal.value))
      else None
  }

  datatype Totals = Totals(
    transparentInputs: Zatoshis, shieldedInputs: Zatoshis, allInputs: Zatoshis, payments: Zatoshis,
    allOutputs: Zatoshis)

  function PriorSum(prior: seq<Step>, refs: seq<StepOutput>): Result<Zatoshis, ProposalError> {
    var values :- PriorValues(prior, refs);
    OrErr(CheckedSum(Identity, values), Overflow)
  }

  function TotalsFrom(transparent: Option<Zatoshis>, shielded: Option<Zatoshis>, prior: Result<Zatoshis, ProposalError>,
                      request: Option<Zatoshis>, balance: Zatoshis): Result<Totals, ProposalError>
  {
    var transparentTotal :- OrErr(transparent, Overflow);
    var shieldedTotal :- OrErr(shielded, Overflow);
    var priorTotal :- prior;
    var chainTotal :- OrErr(CheckedAdd(transparentTotal, shieldedTotal), Overflow);
    var inputTotal :- OrErr(CheckedAdd(chainTotal, priorTotal), Overflow);
    var requestTotal :- OrErr(request, RequestTotalInvalid);
    var outputTotal :- OrErr(CheckedAdd(requestTotal, balance), Overflow);
    Ok(Totals(transparentTotal, shieldedTotal, inputTotal, requestTotal, outputTotal))
  }

  /** The totals of a step, each computed with overflow checks. */
  function StepTotals(prior: seq<Step>, parts: Step): Result<Totals, ProposalError> {
    TotalsFrom(
      CheckedSum(UtxoValue, parts.transparentInputs),
      CheckedSum(NoteValue, parts.shieldedInputs),
      PriorSum(prior, parts.priorStepInputs),
      CheckedSum(RequestAmount(parts.request), Ascending(parts.request.Keys)),
      parts.balance.total)
  }

  /** Faults in the assignment of payments to pools. */
  function PaymentPoolsError(request: TransactionRequest, pools: map<nat, PoolType>): Option<ProposalError> {
    if |request| != |pools| then Some(PaymentPoolsMismatch)
    else FirstPaymentError(request, pools, Ascending(pools.Keys))
  }

  /** `Step::from_parts`. */
  function FromParts(prior: seq<Step>, parts: Step, ironwoodActive: bool): Result<Step, ProposalError> {
    var fault := PaymentPoolsError(parts.request, parts.paymentPools);
    if fault.Some? then Err(fault.value)
    else
      var totals :- StepTotals(prior, parts);
      if parts.isShielding && (totals.transparentInputs == 0 || totals.shieldedInputs > 0 || totals.payments > 0) then
        Err(ShieldingInvalid)
      else
        var turnstile :=
          if ironwoodActive
          then TurnstileError(parts.paymentPools, parts.shieldedInputs, parts.balance.proposedChange)
          else None;
        if turnstile.Some? then Err(turnstile.value)
        else if && parts.anchorHeight.None?
                && ProducesShieldedBundle(parts.shieldedInputs != [], parts.paymentPools, parts.balance.proposedChange)
        then Err(MissingShieldedAnchor)
        else if totals.allInputs == totals.allOutputs then Ok(parts)
        else Err(BalanceError(totals.allInputs, totals.allOutputs))
  }

  /** The value a reference denotes, or zero if it denotes nothing. */
  function RefValue(steps: seq<Step>, r: StepOutput): nat {
    match PriorValue(steps, r)
    case Ok(v) => v
    case Err(_) => 0
  }

  function ValueIn(steps: seq<Step>): StepOutput -> nat {
    r => RefValue(steps, r)
  }

  /** `r` denotes an output with a known value. */
  predicate Denotes(steps: seq<Step>, r: StepOutput) {
    PriorValue(steps, r).Ok?
  }

  predicate Built(ironwoodActive: bool, prior: seq<Step>, s: Step) {
    FromParts(prior, s, ironwoodActive) == Ok(s)
  }

  lemma AcceptanceReturnsTheParts(prior: seq<Step>, parts: Step, ironwoodActive: bool)
    requires FromParts(prior, parts, ironwoodActive).Ok?
    ensures FromParts(prior, parts, ironwoodActive) == Ok(parts)
  {
    hide PaymentPoolsError, StepTotals, TurnstileError, ProducesShieldedBundle;
  }

  /** Every step was validated against the steps before it, as the decode loop does. */
  predicate WellBuilt(ironwoodActive: bool, steps: seq<Step>) {
    steps == [] ||
    (WellBuilt(ironwoodActive, steps[..|steps| - 1]) && Built(ironwoodActive, steps[..|steps| - 1], steps[|steps| - 1]))
  }

  lemma {:induction false} PriorValuesMeaning(prior: seq<Step>, refs: seq<StepOutput>)
    ensures PriorValues(prior, refs).Ok? <==> forall i :: 0 <= i < |refs| ==> Denotes(prior, refs[i])
    ensures PriorValues(prior, refs).Ok? ==>
              && |PriorValues(prior, refs).value| == |refs|
              && forall i :: 0 <= i < |refs| ==> PriorValues(prior, refs).value[i] == RefValue(prior, refs[i])
  {
    if refs != [] {
      PriorValuesMeaning(prior, refs[1..]);
      assert forall i :: 0 < i < |refs| ==> refs[i] == refs[1..][i - 1];
      if PriorValues(prior, refs).Ok? {
        assert forall i :: 0 <= i < |refs[1..]| ==> Denotes(prior, refs[1..][i]);
      } else if Denotes(prior, refs[0]) {
        var i :| 0 <= i < |refs[1..]| && !Denotes(prior, refs[1..][i]);
        assert !Denotes(prior, refs[i + 1]);
      }
    }
  }

  predicate PaymentAssigned(request: TransactionRequest, pools: map<nat, PoolType>, index: nat) {
    && index in request && index in pools
    && request[index].amount.Some?
    && Deliverable(request[index], pools[index])
  }

  lemma {:induction false} FirstPaymentErrorMeaning(request: TransactionRequest, pools: map<nat, PoolType>,
                                                    keys: seq<nat>)
    requires forall k :: k in keys ==> k in pools
    ensures FirstPaymentError(request, pools, keys).None? <==>
            forall k :: k in keys ==> PaymentAssigned(request, pools, k)
  {
    if keys != [] {
      FirstPaymentErrorMeaning(request, pools, keys[1..]);
      assert keys[0] in keys;
      assert forall k :: k in keys <==> k == keys[0] || k in keys[1..];
    }
  }

  lemma SameKeys(a: set<nat>, b: set<nat>)
    requires |a| == |b| && a <= b
    ensures a == b
  {
    assert b == a + (b - a);
  }

  /** Payments and pools match up exactly. */
  predicate PaymentsAssigned(request: TransactionRequest, pools: map<nat, PoolType>) {
    request.Keys == pools.Keys && forall k :: k in request ==> PaymentAssigned(request, pools, k)
  }

  lemma PaymentPoolsErrorMeaning(request: TransactionRequest, pools: map<nat, PoolType>)
    ensures PaymentPoolsError(request, pools).None? <==> PaymentsAssigned(request, pools)
  {
    hide Ascending;
    FirstPaymentErrorMeaning(request, pools, Ascending(pools.Keys));
    if PaymentPoolsError(request, pools).None? {
      SameKeys(pools.Keys, request.Keys);
    } else if request.Keys == pools.Keys {
      assert |request| == |request.Keys| && |pools| == |pools.Keys|;
    }
  }

  lemma {:induction false} FirstInPoolMeaning(pools: map<nat, PoolType>, pool: PoolType, keys: seq<nat>)
    requires forall k :: k in keys ==> k in pools
    ensures FirstInPool(pools, pool, keys).None? <==> forall k :: k in keys ==> pools[k] != pool
  {
    if keys != [] {
      FirstInPoolMeaning(pools, pool, keys[1..]);
      assert keys[0] in keys;
      assert forall k :: k in keys <==> k == keys[0] || k in keys[1..];
    }
  }

  /** What a note adds to the value spent from a pool. */
  function ValueSpentIn(pool: ShieldedPool): ReceivedNote -> nat {
    (n: ReceivedNote) => if n.pool == pool then n.value else 0
  }

  /** What a change output returns to a pool. */
  function ValueReturnedTo(pool: ShieldedPool): ChangeValue -> nat {
    (c: ChangeValue) => if c.ShieldedChange? && c.protocol == pool then c.value else 0
  }

  /** The value a step spends from the Orchard pool, counted over all its notes. */
  function OrchardSpent(s: Step): nat {
    SumOf(ValueSpentIn(Orchard), s.shieldedInputs)
  }

  function OrchardChange(s: Step): nat {
    SumOf(ValueReturnedTo(Orchard), s.balance.proposedChange)
  }

  /** Filtering keeps the notes of the pool and no others, as often as they occur. */
  lemma {:induction false} NotesInKeeps(pool: ShieldedPool, notes: seq<ReceivedNote>, n: ReceivedNote)
    ensures multiset(NotesIn(pool, notes))[n] == if n.pool == pool then multiset(notes)[n] else 0
  {
    if notes != [] {
      NotesInKeeps(pool, notes[..|notes| - 1], n);
      assert notes == notes[..|notes| - 1] + [notes[|notes| - 1]];
    }
  }

  lemma {:induction false} NotesInSum(pool: ShieldedPool, notes: seq<ReceivedNote>)
    ensures SumOf(NoteValue, NotesIn(pool, notes)) == SumOf(ValueSpentIn(pool), notes)
  {
    if notes != [] {
      var kept := NotesIn(pool, notes[..|notes| - 1]);
      NotesInSum(pool, notes[..|notes| - 1]);
      assert (kept + [notes[|notes| - 1]])[..|kept|] == kept;
    }
  }

  /** Filtering keeps the change of the pool and no other, as often as it occurs. */
  lemma {:induction false} ChangeInKeeps(pool: PoolType, change: seq<ChangeValue>, c: ChangeValue)
    ensures multiset(ChangeIn(pool, change))[c] == if c.OutputPool() == pool then multiset(change)[c] else 0
  {
    if change != [] {
      ChangeInKeeps(pool, change[..|change| - 1], c);
      assert change == change[..|change| - 1] + [change[|change| - 1]];
    }
  }

  lemma {:induction false} ChangeInSum(pool: ShieldedPool, change: seq<ChangeValue>)
    ensures SumOf(ChangeAmount, ChangeIn(Shielded(pool), change)) == SumOf(ValueReturnedTo(pool), change)
  {
    if change != [] {
      var kept := ChangeIn(Shielded(pool), change[..|change| - 1]);
      ChangeInSum(pool, change[..|change| - 1]);
      assert (kept + [change[|change| - 1]])[..|kept|] == kept;
    }
  }

  predicate PaysNoOrchard(s: Step) {
    forall k :: k in s.paymentPools ==> s.paymentPools[k] != ORCHARD
  }

  /** No payment goes to the Orchard pool, and less returns to it than the step removes. */
  predicate RespectsTurnstile(s: Step) {
    && PaysNoOrchard(s)
    && (OrchardChange(s) > 0 ==> OrchardChange(s) < OrchardSpent(s))
  }

  lemma {:induction false} NotesInPart(pool: ShieldedPool, notes: seq<ReceivedNote>)
    ensures SumOf(NoteValue, NotesIn(pool, notes)) <= SumOf(NoteValue, notes)
  {
    if notes != [] {
      var front, last := notes[..|notes| - 1], notes[|notes| - 1];
      NotesInPart(pool, front);
      assert (NotesIn(pool, front) + [last])[..|NotesIn(pool, front)|] == NotesIn(pool, front);
    }
  }

  lemma {:induction false} ChangeInPart(pool: PoolType, change: seq<ChangeValue>)
    ensures SumOf(ChangeAmount, ChangeIn(pool, change)) <= SumOf(ChangeAmount, change)
  {
    if change != [] {
      var front, last := change[..|change| - 1], change[|change| - 1];
      ChangeInPart(pool, front);
      assert (ChangeIn(pool, front) + [last])[..|ChangeIn(pool, front)|] == ChangeIn(pool, front);
    }
  }

  lemma TurnstileMeaning(s: Step)
    requires SumOf(NoteValue, s.shieldedInputs) <= MAX_MONEY
    ensures TurnstileError(s.paymentPools, s.shieldedInputs, s.balance.proposedChange).None? <==> RespectsTurnstile(s)
  {
    hide Ascending;
    FirstInPoolMeaning(s.paymentPools, ORCHARD, Ascending(s.paymentPools.Keys));
    NotesInPart(Orchard, s.shieldedInputs);
    ChangeInPart(ORCHARD, s.balance.proposedChange);
    NotesInSum(Orchard, s.shieldedInputs);
    ChangeInSum(Orchard, s.balance.proposedChange);
    CheckedSumMeaning(NoteValue, NotesIn(Orchard, s.shieldedInputs));
    CheckedSumMeaning(ChangeAmount, ChangeIn(ORCHARD, s.balance.proposedChange));
  }

  function PriorTotal(prior: seq<Step>, refs: seq<StepOutput>): nat {
    SumOf(ValueIn(prior), refs)
  }

  lemma PriorSumMeaning(prior: seq<Step>, refs: seq<StepOutput>)
    ensures PriorSum(prior, refs).Ok? <==>
            (forall i :: 0 <= i < |refs| ==> Denotes(prior, refs[i])) && PriorTotal(prior, refs) <= MAX_MONEY
    ensures PriorSum(prior, refs).Ok? ==> PriorSum(prior, refs).value == PriorTotal(prior, refs)
  {
    PriorValuesMeaning(prior, refs);
    if PriorValues(prior, refs).Ok? {
      CheckedSumMeaning(Identity, PriorValues(prior, refs).value);
      SumOfCongruent(Identity, ValueIn(prior), PriorValues(prior, refs).value, refs);
    }
  }

  /** The amount, if it is in range. */
  function InRange(x: nat): Option<Zatoshis> {
    if x <= MAX_MONEY then Some(x) else None
  }

  lemma TotalsFromMeaning(t: nat, s: nat, prior: Result<Zatoshis, ProposalError>, q: nat, balance: Zatoshis)
    ensures TotalsFrom(InRange(t), InRange(s), prior, InRange(q), balance).Ok? <==>
            prior.Ok? && t + s + prior.value <= MAX_MONEY && q + balance <= MAX_MONEY
    ensures TotalsFrom(InRange(t), InRange(s), prior, InRange(q), balance).Ok? ==>
              TotalsFrom(InRange(t), InRange(s), prior, InRange(q), balance).value ==
              Totals(t, s, t + s + prior.value, q, q + balance)
  {
  }

  /** The totals exist when every reference denotes something and neither side is out of range, and
      are then the true sums. */
  lemma TotalsMeaning(prior: seq<Step>, s: Step)
    ensures StepTotals(prior, s).Ok? <==>
            && RefsDenote(prior, s)
            && ChainTotal(s) + PriorTotal(prior, s.priorStepInputs) <= MAX_MONEY
            && PaymentTotal(s) + ChangeTotal(s) + Fee(s) <= MAX_MONEY
    ensures StepTotals(prior, s).Ok? ==>
              var t := StepTotals(prior, s).value;
              && t.transparentInputs == SumOf(UtxoValue, s.transparentInputs)
              && t.shieldedInputs == SumOf(NoteValue, s.shieldedInputs)
              && t.allInputs == ChainTotal(s) + PriorTotal(prior, s.priorStepInputs)
              && t.payments == PaymentTotal(s)
              && t.allOutputs == PaymentTotal(s) + ChangeTotal(s) + Fee(s)
  {
    hide Ascending;
    PriorSumMeaning(prior, s.priorStepInputs);
    CheckedSumMeaning(UtxoValue, s.transparentInputs);
    CheckedSumMeaning(NoteValue, s.shieldedInputs);
    CheckedSumMeaning(RequestAmount(s.request), Ascending(s.request.Keys));
    TotalsFromMeaning(SumOf(UtxoValue, s.transparentInputs), SumOf(NoteValue, s.shieldedInputs),
                      PriorSum(prior, s.priorStepInputs), PaymentTotal(s), s.balance.total);
  }

  /** The step's inputs and outputs balance exactly, in integers without bound. */
  predicate Balanced(prior: seq<Step>, s: Step) {
    ChainTotal(s) + PriorTotal(prior, s.priorStepInputs) == PaymentTotal(s) + ChangeTotal(s) + Fee(s)
  }

  /** Every reference of the step denotes an output of an earlier step. */
  predicate RefsDenote(prior: seq<Step>, s: Step) {
    forall i :: 0 <= i < |s.priorStepInputs| ==> Denotes(prior, s.priorStepInputs[i])
  }

  predicate ShieldingRule(s: Step) {
    s.isShielding ==>
      && SumOf(UtxoValue, s.transparentInputs) > 0
      && SumOf(NoteValue, s.shieldedInputs) == 0
      && PaymentTotal(s) == 0
  }

  predicate AnchorRule(s: Step) {
    ProducesShieldedBundle(s.shieldedInputs != [], s.paymentPools, s.balance.proposedChange) ==> s.anchorHeight.Some?
  }

  lemma BuiltMeansChecksPass(ironwoodActive: bool, prior: seq<Step>, s: Step)
    ensures Built(ironwoodActive, prior, s) <==>
            && PaymentPoolsError(s.request, s.paymentPools).None?
            && StepTotals(prior, s).Ok?
            && var t := StepTotals(prior, s).value;
            && (s.isShielding ==> t.transparentInputs > 0 && t.shieldedInputs == 0 && t.payments == 0)
            && (ironwoodActive ==> TurnstileError(s.paymentPools, s.shieldedInputs, s.balance.proposedChange).None?)
            && AnchorRule(s)
            && t.allInputs == t.allOutputs
  {
    hide PaymentPoolsError, StepTotals, TurnstileError, ProducesShieldedBundle;
  }

  /** A step is accepted exactly when every payment has an amount and a pool that can receive it,
      every reference denotes an earlier output, the inputs are in range and equal the outputs, a
      shielding step spends only transparent value and pays nobody, the turnstile is respected once
      Ironwood is active, and a step with a shielded bundle has an anchor. */
  lemma StepAcceptedIff(ironwoodActive: bool, prior: seq<Step>, s: Step)
    ensures Built(ironwoodActive, prior, s) <==>
            && PaymentsAssigned(s.request, s.paymentPools)
            && RefsDenote(prior, s)
            && ChainTotal(s) + PriorTotal(prior, s.priorStepInputs) <= MAX_MONEY
            && Balanced(prior, s)
            && ShieldingRule(s)
            && (ironwoodActive ==> RespectsTurnstile(s))
            && AnchorRule(s)
  {
    hide Built, PaymentPoolsError, StepTotals, TurnstileError, ProducesShieldedBundle;
    BuiltMeansChecksPass(ironwoodActive, prior, s);
    PaymentPoolsErrorMeaning(s.request, s.paymentPools);
    TotalsMeaning(prior, s);
    if SumOf(NoteValue, s.shieldedInputs) <= MAX_MONEY {
      TurnstileMeaning(s);
    }
  }

  // ---------- The same on the fields of the step ----------

  /** Every payment has an amount and a pool, and its recipient can receive there; an Ironwood payment
      needs an Orchard receiver or one of its own. */
  predicate PaymentsReceivable(s: Step) {
    && s.request.Keys == s.paymentPools.Keys
    && forall k :: k in s.request ==>
         && s.request[k].amount.Some?
         && (|| s.paymentPools[k] in s.request[k].receivers
             || (s.paymentPools[k] == Shielded(Ironwood) && Shielded(Orchard) in s.request[k].receivers))
  }

  /** Every reference is to a payment with an amount, or a change output, of an earlier step. */
  predicate RefsExist(prior: seq<Step>, s: Step) {
    forall i :: 0 <= i < |s.priorStepInputs| ==>
      var r := s.priorStepInputs[i];
      && r.stepIndex < |prior|
      && match r.outputIndex {
           case PaymentIndex(k) => k in prior[r.stepIndex].request && prior[r.stepIndex].request[k].amount.Some?
           case ChangeIndex(k) => k < |prior[r.stepIndex].balance.proposedChange|
         }
  }

  predicate HasShieldedPart(s: Step) {
    || s.shieldedInputs != []
    || (exists k :: k in s.paymentPools && s.paymentPools[k].Shielded?)
    || (exists i :: 0 <= i < |s.balance.proposedChange| && s.balance.proposedChange[i].ShieldedChange?)
  }

  /** What a reference is worth. */
  lemma RefWorth(prior: seq<Step>, r: StepOutput)
    requires Denotes(prior, r)
    ensures r.stepIndex < |prior|
    ensures r.outputIndex.PaymentIndex? ==>
              var request := prior[r.stepIndex].request;
              r.outputIndex.index in request && request[r.outputIndex.index].amount == Some(RefValue(prior, r))
    ensures r.outputIndex.ChangeIndex? ==>
              var change := prior[r.stepIndex].balance.proposedChange;
              r.outputIndex.index < |change| && change[r.outputIndex.index].value == RefValue(prior, r)
  {
  }

  /** Acceptance, said on the fields: a payment whose receivers lack the pool, a reference to nothing, value
      created in Orchard or a shielded part without an anchor is each refused, and nothing else is. */
  lemma StepAcceptedOnFieldsIff(ironwoodActive: bool, prior: seq<Step>, s: Step)
    ensures Built(ironwoodActive, prior, s) <==>
            && PaymentsReceivable(s)
            && RefsExist(prior, s)
            && ChainTotal(s) + PriorTotal(prior, s.priorStepInputs) <= MAX_MONEY
            && ChainTotal(s) + PriorTotal(prior, s.priorStepInputs) ==
               PaymentTotal(s) + ChangeTotal(s) + s.balance.feeRequired
            && (s.isShielding ==> SumOf(UtxoValue, s.transparentInputs) > 0 && PaymentTotal(s) == 0
                                  && SumOf(NoteValue, s.shieldedInputs) == 0)
            && (ironwoodActive ==>
                  && (forall k :: k in s.paymentPools ==> s.paymentPools[k] != Shielded(Orchard))
                  && (OrchardChange(s) > 0 ==> OrchardChange(s) < OrchardSpent(s)))
            && (HasShieldedPart(s) ==> s.anchorHeight.Some?)
  {
    hide Built, SumOf, PriorTotal, PaymentTotal;
    StepAcceptedIff(ironwoodActive, prior, s);
    assert RefsDenote(prior, s) <==> RefsExist(prior, s);
    assert PaymentsAssigned(s.request, s.paymentPools) <==> PaymentsReceivable(s);
    ShieldedPartIff(s);
  }

  // ---------- Why a step is refused ----------

  lemma {:induction false} FirstPaymentErrorReason(request: TransactionRequest, pools: map<nat, PoolType>,
                                                   keys: seq<nat>)
    requires forall k :: k in keys ==> k in pools
    requires FirstPaymentError(request, pools, keys).Some?
    ensures
      var e := FirstPaymentError(request, pools, keys).value;
      || (e == PaymentPoolsMismatch && exists k :: k in pools && (k !in request || !Deliverable(request[k], pools[k])))
      || (e.PaymentAmountMissing? && e.index in pools && e.index in request && request[e.index].amount.None?)
  {
    if PaymentError(request, pools, keys[0]).None? {
      FirstPaymentErrorReason(request, pools, keys[1..]);
    } else {
      assert keys[0] in keys;
    }
  }

  lemma {:induction false} PriorValuesReason(prior: seq<Step>, refs: seq<StepOutput>)
    requires PriorValues(prior, refs).Err?
    ensures exists r :: r in refs && PriorValue(prior, r) == Err(PriorValues(prior, refs).error)
  {
    if PriorValue(prior, refs[0]).Ok? {
      PriorValuesReason(prior, refs[1..]);
      var r :| r in refs[1..] && PriorValue(prior, r) == Err(PriorValues(prior, refs[1..]).error);
      assert r in refs;
    } else {
      assert refs[0] in refs;
    }
  }

  lemma {:induction false} FirstInPoolReason(pools: map<nat, PoolType>, pool: PoolType, keys: seq<nat>)
    requires forall k :: k in keys ==> k in pools
    requires FirstInPool(pools, pool, keys).Some?
    ensures FirstInPool(pools, pool, keys).value in keys && pools[FirstInPool(pools, pool, keys).value] == pool
  {
    if pools[keys[0]] != pool {
      FirstInPoolReason(pools, pool, keys[1..]);
    } else {
      assert keys[0] in keys;
    }
  }

  /** What each refusal says is so: the amounts it names are the true ones, and so is the payment or the
      reference it points to. */
  predicate Truthful(ironwoodActive: bool, prior: seq<Step>, s: Step, e: ProposalError) {
    match e
    case PaymentPoolsMismatch =>
      || |s.request| != |s.paymentPools|
      || exists k :: k in s.paymentPools && (k !in s.request || !Deliverable(s.request[k], s.paymentPools[k]))
    case PaymentAmountMissing(k) =>
      || (k in s.request && s.request[k].amount.None?)
      || exists r :: r in s.priorStepInputs && r.outputIndex == PaymentIndex(k) && !Denotes(prior, r)
    case ReferenceError(r) => r in s.priorStepInputs && !Denotes(prior, r)
    case Overflow =>
      || ChainTotal(s) + PriorTotal(prior, s.priorStepInputs) > MAX_MONEY
      || PaymentTotal(s) + ChangeTotal(s) + Fee(s) > MAX_MONEY
    case RequestTotalInvalid => PaymentTotal(s) > MAX_MONEY
    case ShieldingInvalid => !ShieldingRule(s)
    case OrchardPoolPayment(k) => ironwoodActive && k in s.paymentPools && s.paymentPools[k] == Shielded(Orchard)
    case OrchardPoolValueCreation(spent, returned) =>
      ironwoodActive && spent == OrchardSpent(s) && returned == OrchardChange(s) && 0 < returned && spent <= returned
    case MissingShieldedAnchor => HasShieldedPart(s) && s.anchorHeight.None?
    case BalanceError(inputs, outputs) =>
      && inputs == ChainTotal(s) + PriorTotal(prior, s.priorStepInputs)
      && outputs == PaymentTotal(s) + ChangeTotal(s) + Fee(s) && inputs != outputs
    case _ => false
  }

  lemma TotalsReason(ironwoodActive: bool, prior: seq<Step>, s: Step)
    requires StepTotals(prior, s).Err?
    ensures Truthful(ironwoodActive, prior, s, StepTotals(prior, s).error)
  {
    hide Ascending;
    PriorSumMeaning(prior, s.priorStepInputs);
    CheckedSumMeaning(UtxoValue, s.transparentInputs);
    CheckedSumMeaning(NoteValue, s.shieldedInputs);
    CheckedSumMeaning(RequestAmount(s.request), Ascending(s.request.Keys));
    hide SumOf, CheckedSum;
    if PriorValues(prior, s.priorStepInputs).Err? {
      PriorValuesReason(prior, s.priorStepInputs);
    } else {
      PriorValuesMeaning(prior, s.priorStepInputs);
    }
  }

  lemma TurnstileReason(prior: seq<Step>, s: Step)
    requires SumOf(NoteValue, s.shieldedInputs) <= MAX_MONEY
    requires TurnstileError(s.paymentPools, s.shieldedInputs, s.balance.proposedChange).Some?
    ensures Truthful(true, prior, s, TurnstileError(s.paymentPools, s.shieldedInputs, s.balance.proposedChange).value)
  {
    hide Ascending;
    var keys := Ascending(s.paymentPools.Keys);
    if FirstInPool(s.paymentPools, ORCHARD, keys).Some? {
      FirstInPoolReason(s.paymentPools, ORCHARD, keys);
    } else {
      NotesInPart(Orchard, s.shieldedInputs);
      ChangeInPart(ORCHARD, s.balance.proposedChange);
      NotesInSum(Orchard, s.shieldedInputs);
      ChangeInSum(Orchard, s.balance.proposedChange);
      CheckedSumMeaning(NoteValue, NotesIn(Orchard, s.shieldedInputs));
      CheckedSumMeaning(ChangeAmount, ChangeIn(ORCHARD, s.balance.proposedChange));
    }
  }

  lemma ShieldedPartIff(s: Step)
    ensures ProducesShieldedBundle(s.shieldedInputs != [], s.paymentPools, s.balance.proposedChange) <==>
            HasShieldedPart(s)
  {
    assert forall i :: 0 <= i < |s.balance.proposedChange| ==>
        (IsShieldedPool(s.balance.proposedChange[i].OutputPool()) <==> s.balance.proposedChange[i].ShieldedChange?);
    assert forall k :: k in s.paymentPools ==> (IsShieldedPool(s.paymentPools[k]) <==> s.paymentPools[k].Shielded?);
  }

  lemma PaymentsReason(ironwoodActive: bool, prior: seq<Step>, s: Step)
    requires PaymentPoolsError(s.request, s.paymentPools).Some?
    ensures Truthful(ironwoodActive, prior, s, PaymentPoolsError(s.request, s.paymentPools).value)
  {
    hide Ascending, SumOf;
    if |s.request| == |s.paymentPools| {
      FirstPaymentErrorReason(s.request, s.paymentPools, Ascending(s.paymentPools.Keys));
    }
  }

  /** The refusals that come once the totals are known. */
  lemma LateReason(ironwoodActive: bool, prior: seq<Step>, s: Step)
    requires PaymentPoolsError(s.request, s.paymentPools).None? && StepTotals(prior, s).Ok?
    requires FromParts(prior, s, ironwoodActive).Err?
    requires ironwoodActive ==> TurnstileError(s.paymentPools, s.shieldedInputs, s.balance.proposedChange).None?
    ensures Truthful(ironwoodActive, prior, s, FromParts(prior, s, ironwoodActive).error)
  {
    TotalsMeaning(prior, s);
    ShieldedPartIff(s);
    hide PaymentPoolsError, StepTotals, TurnstileError, ProducesShieldedBundle, HasShieldedPart, SumOf;
    hide ChainTotal, PriorTotal, PaymentTotal, ChangeTotal;
  }

  lemma RefusalsAreTruthful(ironwoodActive: bool, prior: seq<Step>, s: Step)
    requires FromParts(prior, s, ironwoodActive).Err?
    ensures Truthful(ironwoodActive, prior, s, FromParts(prior, s, ironwoodActive).error)
  {
    var turnstile := TurnstileError(s.paymentPools, s.shieldedInputs, s.balance.proposedChange);
    var totals := StepTotals(prior, s);
    assert totals.Ok? ==> SumOf(NoteValue, s.shieldedInputs) <= MAX_MONEY by {
      TotalsMeaning(prior, s);
    }
    hide PaymentPoolsError, StepTotals, TurnstileError, ProducesShieldedBundle, SumOf, Truthful;
    if PaymentPoolsError(s.request, s.paymentPools).Some? {
      PaymentsReason(ironwoodActive, prior, s);
    } else if totals.Err? {
      TotalsReason(ironwoodActive, prior, s);
    } else if ironwoodActive && turnstile.Some? {
      if FromParts(prior, s, ironwoodActive).error == turnstile.value {
        TurnstileReason(prior, s);
      } else {
        ShieldingReason(ironwoodActive, prior, s);
      }
    } else {
      LateReason(ironwoodActive, prior, s);
    }
  }

  /** Before the turnstile, only the shielding rule is left to fail. */
  lemma ShieldingReason(ironwoodActive: bool, prior: seq<Step>, s: Step)
    requires PaymentPoolsError(s.request, s.paymentPools).None? && StepTotals(prior, s).Ok?
    requires TurnstileError(s.paymentPools, s.shieldedInputs, s.balance.proposedChange).Some?
    requires FromParts(prior, s, true) !=
             Err(TurnstileError(s.paymentPools, s.shieldedInputs, s.balance.proposedChange).value)
    ensures FromParts(prior, s, true) == Err(ShieldingInvalid) && Truthful(ironwoodActive, prior, s, ShieldingInvalid)
  {
    TotalsMeaning(prior, s);
    hide PaymentPoolsError, StepTotals, TurnstileError, ProducesShieldedBundle, SumOf;
  }

  // ---------- What the steps of a run satisfy ----------

  /** The part of acceptance that statements about whole runs need. */
  predicate StepSound(ironwoodActive: bool, prior: seq<Step>, s: Step) {
    RefsDenote(prior, s) && Balanced(prior, s) && (ironwoodActive ==> RespectsTurnstile(s))
  }

  predicate RunSound(ironwoodActive: bool, steps: seq<Step>) {
    steps == [] ||
    (&& RunSound(ironwoodActive, steps[..|steps| - 1])
     && StepSound(ironwoodActive, steps[..|steps| - 1], steps[|steps| - 1]))
  }

  lemma BuiltIsSound(ironwoodActive: bool, prior: seq<Step>, s: Step)
    requires Built(ironwoodActive, prior, s)
    ensures StepSound(ironwoodActive, prior, s)
  {
    StepAcceptedIff(ironwoodActive, prior, s);
  }

  lemma {:induction false} WellBuiltIsSound(ironwoodActive: bool, steps: seq<Step>)
    requires WellBuilt(ironwoodActive, steps)
    ensures RunSound(ironwoodActive, steps)
  {
    if steps != [] {
      WellBuiltIsSound(ironwoodActive, steps[..|steps| - 1]);
      BuiltIsSound(ironwoodActive, steps[..|steps| - 1], steps[|steps| - 1]);
    }
  }
}
