/** Fee-side arithmetic: splitting change, the padding of bundles, and canonical crossings. */
module Fees {
  import opened Wrappers
  import opened Sums
  import opened Proposals

  // ---------- Splitting change ----------

  const USIZE_MAX: nat := 0xffff_ffff_ffff_ffff

  type NonZeroUsize = n: int | 0 < n <= USIZE_MAX witness 1

  datatype SplitPolicy = SplitPolicy(targetOutputCount: NonZeroUsize, minSplitOutputValue: Option<Zatoshis>)

  /** How many outputs the policy still wants, and at least one. */
  function WantedOutputs(policy: SplitPolicy, existingNotes: Option<nat>): NonZeroUsize {
    var existing := existingNotes.UnwrapOr(USIZE_MAX);
    if policy.targetOutputCount > existing then policy.targetOutputCount - existing else 1
  }

  function SaturatingMul4(n: NonZeroUsize): NonZeroUsize {
    if 4 * n <= USIZE_MAX then 4 * n else USIZE_MAX
  }

  /** The least value an output may have: the policy's, or else a quarter of the average note after
      the transaction, if the existing total is known and the sum is in range. */
  function MinimumOutput(policy: SplitPolicy, existingTotal: Option<Zatoshis>, totalChange: Zatoshis)
    : Option<Zatoshis>
  {
    if policy.minSplitOutputValue.Some? then policy.minSplitOutputValue
    else
      var existing :- existingTotal;
      var total :- CheckedAdd(existing, totalChange);
      QuotientInRange(total, SaturatingMul4(policy.targetOutputCount));
      Some(total / SaturatingMul4(policy.targetOutputCount))
  }

  lemma QuotientInRange(x: nat, d: nat)
    requires d > 0
    ensures 0 <= x / d <= x
  {
    assert x == d * (x / d) + x % d;
    MulLeft(1, d, x / d);
  }

  lemma MulLeft(c: nat, d: nat, q: nat)
    requires c <= d
    ensures c * q <= d * q
  {
  }

  /** Splitting the change `count` ways leaves every output at least `minimum`. */
  predicate Affordable(totalChange: nat, minimum: nat, count: nat)
    requires count > 0
  {
    totalChange / count >= minimum
  }

  /** `count` is the largest number, from one up to what the policy wants, that leaves every output
      at least the minimum, or one if no number does or there is no minimum. */
  predicate IsSplitCount(policy: SplitPolicy, existingNotes: Option<nat>, existingTotal: Option<Zatoshis>,
                         totalChange: Zatoshis, count: NonZeroUsize)
  {
    var wanted := WantedOutputs(policy, existingNotes);
    match MinimumOutput(policy, existingTotal, totalChange)
    case None => count == 1
    case Some(minimum) =>
      && count <= wanted
      && (count > 1 ==> Affordable(totalChange, minimum, count))
      && (forall c :: count < c <= wanted ==> !Affordable(totalChange, minimum, c))
  }

  /** `SplitPolicy::split_count`. */
  method SplitCount(policy: SplitPolicy, existingNotes: Option<nat>, existingTotal: Option<Zatoshis>,
                    totalChange: Zatoshis)
    returns (count: NonZeroUsize)
    ensures IsSplitCount(policy, existingNotes, existingTotal, totalChange, count)
    ensures IsPromisedCount(policy, existingNotes, existingTotal, totalChange, count)
  {
    count := CountDown(policy, existingNotes, existingTotal, totalChange);
    SplitCountOnFields(policy, existingNotes, existingTotal, totalChange, count);
  }

  method CountDown(policy: SplitPolicy, existingNotes: Option<nat>, existingTotal: Option<Zatoshis>,
                   totalChange: Zatoshis)
    returns (count: NonZeroUsize)
    ensures IsSplitCount(policy, existingNotes, existingTotal, totalChange, count)
  {
    var existing := if existingNotes.Some? then existingNotes.value else USIZE_MAX;
    count := if policy.targetOutputCount > existing then policy.targetOutputCount - existing else 1;
    var minimum := MinimumOutput(policy, existingTotal, totalChange);
    if minimum.None? {
      return 1;
    }
    while totalChange / count < minimum.value
      invariant 1 <= count <= WantedOutputs(policy, existingNotes)
      invariant forall c :: count < c <= WantedOutputs(policy, existingNotes) ==>
                !Affordable(totalChange, minimum.value, c)
      decreases count
    {
      if count == 1 {
        return 1;
      }
      count := count - 1;
    }
  }

  lemma QuotientMonotone(x: nat, c: nat, d: nat)
    requires 0 < c <= d
    ensures x / c >= x / d
  {
    var q := x / d;
    assert x == d * q + x % d;
    assert c * q <= d * q by {
      MulLeft(c, d, q);
    }
    QuotientAtLeast(x, c, q);
  }

  lemma QuotientAtLeast(x: nat, c: nat, q: nat)
    requires c > 0 && c * q <= x
    ensures x / c >= q
  {
    assert x == c * (x / c) + x % c;
    if x / c < q {
      MulLeft(x / c + 1, q, c);
    }
  }

  /** With a derived minimum and nothing in the wallet, everything the policy wants is affordable. */
  lemma FreshWalletSplitsFully(policy: SplitPolicy, existingNotes: Option<nat>, totalChange: Zatoshis)
    requires policy.minSplitOutputValue.None?
    ensures MinimumOutput(policy, Some(0), totalChange).Some?
    ensures Affordable(totalChange, MinimumOutput(policy, Some(0), totalChange).value,
                       WantedOutputs(policy, existingNotes))
  {
    QuotientMonotone(totalChange, WantedOutputs(policy, existingNotes), SaturatingMul4(policy.targetOutputCount));
  }

  /** The description fits one number only, and in a fresh wallet it is what the policy wants. */
  lemma SplitCountDetermined(policy: SplitPolicy, existingNotes: Option<nat>, existingTotal: Option<Zatoshis>,
                             totalChange: Zatoshis, c: NonZeroUsize, d: NonZeroUsize)
    requires IsSplitCount(policy, existingNotes, existingTotal, totalChange, c)
    requires IsSplitCount(policy, existingNotes, existingTotal, totalChange, d)
    ensures c == d
    ensures policy.minSplitOutputValue.None? && existingTotal == Some(0) ==> c == WantedOutputs(policy, existingNotes)
  {
    if policy.minSplitOutputValue.None? && existingTotal == Some(0) {
      FreshWalletSplitsFully(policy, existingNotes, totalChange);
    }
  }

  // ---------- The same by multiplication ----------

  /** `m` is the least value an output may have: the policy's own, or the quotient of everything the wallet
      will hold by four times the target, capped at the largest word. */
  predicate IsMinimum(policy: SplitPolicy, existingTotal: Option<Zatoshis>, totalChange: Zatoshis, m: nat) {
    if policy.minSplitOutputValue.Some? then policy.minSplitOutputValue.value == m
    else
      && existingTotal.Some? && existingTotal.value + totalChange <= MAX_MONEY
      && var d := if 4 * policy.targetOutputCount <= USIZE_MAX then 4 * policy.targetOutputCount else USIZE_MAX;
      m * d <= existingTotal.value + totalChange < (m + 1) * d
  }

  predicate HasNoMinimum(policy: SplitPolicy, existingTotal: Option<Zatoshis>, totalChange: Zatoshis) {
    && policy.minSplitOutputValue.None?
    && (existingTotal.None? || existingTotal.value + totalChange > MAX_MONEY)
  }

  lemma QuotientIff(x: nat, d: nat, m: nat)
    requires d > 0
    ensures x / d == m <==> m * d <= x < (m + 1) * d
  {
    var q := x / d;
    assert x == d * q + x % d;
    assert q * d == d * q && (q + 1) * d == d * q + d;
    if m < q {
      MulLeft(m + 1, q, d);
    } else if q < m {
      MulLeft(q + 1, m, d);
    }
  }

  lemma MinimumOutputMeaning(policy: SplitPolicy, existingTotal: Option<Zatoshis>, totalChange: Zatoshis, m: Zatoshis)
    ensures MinimumOutput(policy, existingTotal, totalChange) == Some(m) <==>
            IsMinimum(policy, existingTotal, totalChange, m)
    ensures MinimumOutput(policy, existingTotal, totalChange).None? <==>
            HasNoMinimum(policy, existingTotal, totalChange)
  {
    if policy.minSplitOutputValue.None? && existingTotal.Some? {
      QuotientIff(existingTotal.value + totalChange, SaturatingMul4(policy.targetOutputCount), m);
    }
  }

  /** The shortfall of the target, or one if there is none or the notes are not known. */
  function Shortfall(policy: SplitPolicy, existingNotes: Option<nat>): int {
    if existingNotes.Some? && existingNotes.value < policy.targetOutputCount
    then policy.targetOutputCount - existingNotes.value else 1
  }

  predicate Pays(totalChange: nat, m: nat, count: int) {
    m * count <= totalChange
  }

  /** `count` outputs of at least `m` are as many as the change pays for, up to the shortfall. */
  predicate IsLargestSplit(wanted: int, totalChange: nat, m: nat, count: int) {
    && 1 <= count <= wanted
    && (count > 1 ==> Pays(totalChange, m, count))
    && (forall c :: count < c <= wanted ==> !Pays(totalChange, m, c))
  }

  /** The count the policy promises, without division: one if there is no minimum, and else the largest
      number up to the shortfall whose outputs the change pays for at the minimum, or one. */
  ghost predicate IsPromisedCount(policy: SplitPolicy, existingNotes: Option<nat>, existingTotal: Option<Zatoshis>,
                                  totalChange: Zatoshis, count: int)
  {
    if HasNoMinimum(policy, existingTotal, totalChange) then count == 1
    else exists m: Zatoshis :: IsMinimum(policy, existingTotal, totalChange, m)
                               && IsLargestSplit(Shortfall(policy, existingNotes), totalChange, m, count)
  }

  lemma AffordableIff(totalChange: nat, m: nat, count: nat)
    requires count > 0
    ensures Affordable(totalChange, m, count) <==> Pays(totalChange, m, count)
  {
    var q := totalChange / count;
    assert totalChange == count * q + totalChange % count && q * count == count * q && m * count == count * m;
    if m <= q {
      MulLeft(m, q, count);
    } else {
      MulLeft(q + 1, m, count);
      assert (q + 1) * count == q * count + count;
    }
  }

  lemma SplitCountOnFields(policy: SplitPolicy, existingNotes: Option<nat>, existingTotal: Option<Zatoshis>,
                           totalChange: Zatoshis, count: NonZeroUsize)
    ensures IsSplitCount(policy, existingNotes, existingTotal, totalChange, count) <==>
            IsPromisedCount(policy, existingNotes, existingTotal, totalChange, count)
  {
    hide IsMinimum, MinimumOutput, HasNoMinimum, Affordable, Pays;
    MinimumOutputMeaning(policy, existingTotal, totalChange, 0);
    assert WantedOutputs(policy, existingNotes) == Shortfall(policy, existingNotes);
    var minimum := MinimumOutput(policy, existingTotal, totalChange);
    if minimum.Some? {
      forall c: int | c > 0 ensures Affordable(totalChange, minimum.value, c) <==> Pays(totalChange, minimum.value, c) {
        AffordableIff(totalChange, minimum.value, c);
      }
      forall m: Zatoshis ensures IsMinimum(policy, existingTotal, totalChange, m) <==> m == minimum.value {
        MinimumOutputMeaning(policy, existingTotal, totalChange, m);
      }
      var wanted := Shortfall(policy, existingNotes);
      assert IsLargestSplit(wanted, totalChange, minimum.value, count) <==>
             && count <= wanted && (count > 1 ==> Affordable(totalChange, minimum.value, count))
             && forall c :: count < c <= wanted ==> !Affordable(totalChange, minimum.value, c);
      assert IsMinimum(policy, existingTotal, totalChange, minimum.value);
    }
  }

  // ---------- Counting in pools ----------

  function PaymentsTo(pool: PoolType, pools: map<nat, PoolType>, keys: seq<nat>): seq<nat>
    requires forall k :: k in keys ==> k in pools
  {
    if keys == [] then []
    else if pools[keys[0]] == pool then [keys[0]] + PaymentsTo(pool, pools, keys[1..])
    else PaymentsTo(pool, pools, keys[1..])
  }

  function InputCount(s: Step, pool: PoolType): nat {
    match pool
    case Transparent => |s.transparentInputs|
    case Shielded(p) => |NotesIn(p, s.shieldedInputs)|
  }

  function OutputCount(s: Step, pool: PoolType): nat {
    |PaymentsTo(pool, s.paymentPools, Ascending(s.paymentPools.Keys))|
  }

  function ChangeCount(s: Step, pool: PoolType): nat {
    |ChangeIn(pool, s.balance.proposedChange)|
  }

  // ---------- What the counts count ----------

  /** Which notes are of a pool, by their places. */
  ghost function NotePlaces(pool: ShieldedPool, notes: seq<ReceivedNote>): set<nat> {
    set i: nat | i < |notes| && notes[i].pool == pool
  }

  ghost function ChangePlaces(pool: PoolType, change: seq<ChangeValue>): set<nat> {
    set i: nat | i < |change| && change[i].OutputPool() == pool
  }

  /** Which payments go to a pool. */
  ghost function PaymentKeys(pool: PoolType, pools: map<nat, PoolType>): set<nat> {
    set k | k in pools && pools[k] == pool
  }

  lemma {:induction false} NotesCounted(pool: ShieldedPool, notes: seq<ReceivedNote>)
    ensures |NotesIn(pool, notes)| == |NotePlaces(pool, notes)|
  {
    if notes != [] {
      var n := |notes| - 1;
      NotesCounted(pool, notes[..n]);
      var before := NotePlaces(pool, notes[..n]);
      assert n !in before;
      assert NotePlaces(pool, notes) == if notes[n].pool == pool then before + {n} else before;
    } else {
      assert NotePlaces(pool, notes) == {};
    }
  }

  lemma {:induction false} ChangeCounted(pool: PoolType, change: seq<ChangeValue>)
    ensures |ChangeIn(pool, change)| == |ChangePlaces(pool, change)|
  {
    if change != [] {
      var n := |change| - 1;
      ChangeCounted(pool, change[..n]);
      var before := ChangePlaces(pool, change[..n]);
      assert n !in before;
      assert ChangePlaces(pool, change) == if change[n].OutputPool() == pool then before + {n} else before;
    } else {
      assert ChangePlaces(pool, change) == {};
    }
  }

  lemma {:induction false} PaymentsListed(pool: PoolType, pools: map<nat, PoolType>, keys: seq<nat>)
    requires forall k :: k in keys ==> k in pools
    requires NoDuplicates(keys)
    ensures forall k :: k in PaymentsTo(pool, pools, keys) <==> k in keys && pools[k] == pool
    ensures NoDuplicates(PaymentsTo(pool, pools, keys))
  {
    if keys != [] {
      assert forall i :: 0 <= i < |keys| - 1 ==> keys[1..][i] == keys[i + 1];
      assert keys[0] !in keys[1..];
      assert keys[0] in keys;
      assert forall k :: k in keys <==> k == keys[0] || k in keys[1..];
      PaymentsListed(pool, pools, keys[1..]);
    }
  }

  lemma {:induction false} DistinctCount<T>(xs: seq<T>)
    requires NoDuplicates(xs)
    ensures |Elements(xs)| == |xs|
  {
    if xs != [] {
      var front, last := xs[..|xs| - 1], xs[|xs| - 1];
      DistinctCount(front);
      assert last !in front;
      assert Elements(xs) == Elements(front) + {last};
    }
  }

  /** The counts are the numbers of notes, payments and change outputs of the pool. */
  lemma CountsMeaning(s: Step, pool: PoolType)
    ensures InputCount(s, pool) ==
            if pool.Shielded? then |NotePlaces(pool.pool, s.shieldedInputs)| else |s.transparentInputs|
    ensures OutputCount(s, pool) == |PaymentKeys(pool, s.paymentPools)|
    ensures ChangeCount(s, pool) == |ChangePlaces(pool, s.balance.proposedChange)|
  {
    hide NotesIn, ChangeIn, NotePlaces, ChangePlaces, PaymentKeys, OutputCount;
    if pool.Shielded? {
      NotesCounted(pool.pool, s.shieldedInputs);
    }
    ChangeCounted(pool, s.balance.proposedChange);
    PaymentsCounted(s, pool);
  }

  lemma PaymentsCounted(s: Step, pool: PoolType)
    ensures OutputCount(s, pool) == |PaymentKeys(pool, s.paymentPools)|
  {
    hide Ascending;
    var keys := Ascending(s.paymentPools.Keys);
    PaymentsListed(pool, s.paymentPools, keys);
    var payments := PaymentsTo(pool, s.paymentPools, keys);
    hide PaymentsTo;
    DistinctCount(payments);
    assert Elements(payments) == PaymentKeys(pool, s.paymentPools);
  }

  // ---------- Bundle padding ----------

  type U8 = x: int | 0 <= x < 256

  datatype BundlePadding = BundlePadding(bundleRequired: bool, padToMinimum: U8)

  const DEFAULT := BundlePadding(false, 2)
  const UNPADDED := BundlePadding(false, 1)

  function Max(x: nat, y: nat): nat {
    if x < y then y else x
  }

  /** The actions a bundle of the given counts is built with. A spend and an output share an action
      only where cross-address transfers are allowed; nothing at all needs no bundle. */
  function ActionCount(padding: BundlePadding, crossAddress: bool, spends: nat, outputs: nat): nat {
    var requested := if crossAddress then Max(spends, outputs) else spends + outputs;
    if requested == 0 && !padding.bundleRequired then 0 else Max(requested, padding.padToMinimum)
  }

  function RealIronwoodOutputs(s: Step): nat {
    OutputCount(s, IRONWOOD) + ChangeCount(s, IRONWOOD)
  }

  /** `Step::ironwood_bundle_padding`: read from the recorded dummy outputs. */
  function IronwoodBundlePadding(s: Step): BundlePadding {
    if s.balance.dummyOutputs.None? then DEFAULT
    else
      var target := RealIronwoodOutputs(s) + s.balance.dummyOutputs.value.ironwood;
      if target > 255 then UNPADDED
      else BundlePadding(target > 0 && InputCount(s, IRONWOOD) == 0 && RealIronwoodOutputs(s) == 0, Max(target, 1))
  }

  /** `Step::ironwood_action_count` at a given padding. */
  function IronwoodActionCount(s: Step, padding: BundlePadding): nat {
    ActionCount(padding, true, InputCount(s, IRONWOOD), RealIronwoodOutputs(s))
  }

  /** `Step::orchard_action_count` from NU6.3 on, where cross-address transfers are disabled. */
  function OrchardActionCount(s: Step, padding: BundlePadding): nat {
    ActionCount(padding, false, InputCount(s, ORCHARD), OutputCount(s, ORCHARD) + ChangeCount(s, ORCHARD))
  }

  /** The action count by cases: none without need, and otherwise the least number that reaches the padding
      and, where a spend and an output can share an action, each of the two counts, else their sum. */
  lemma ActionCountCases(padding: BundlePadding, crossAddress: bool, spends: nat, outputs: nat)
    ensures
      var n := ActionCount(padding, crossAddress, spends, outputs);
      if spends == 0 && outputs == 0 && !padding.bundleRequired then n == 0
      else
        && n >= padding.padToMinimum
        && (if crossAddress then n >= spends && n >= outputs else n >= spends + outputs)
        && (n > padding.padToMinimum ==> if crossAddress then n == spends || n == outputs else n == spends + outputs)
  {
  }

  /** From NU6.3 on Orchard spends and outputs do not share actions, and Ironwood ones do. */
  lemma PoolActionCounts(s: Step, padding: BundlePadding)
    ensures
      var spends := |NotePlaces(Orchard, s.shieldedInputs)|;
      var outputs := |PaymentKeys(ORCHARD, s.paymentPools)| + |ChangePlaces(ORCHARD, s.balance.proposedChange)|;
      OrchardActionCount(s, padding) == ActionCount(padding, false, spends, outputs)
    ensures
      var spends := |NotePlaces(Ironwood, s.shieldedInputs)|;
      var outputs := |PaymentKeys(IRONWOOD, s.paymentPools)| + |ChangePlaces(IRONWOOD, s.balance.proposedChange)|;
      IronwoodActionCount(s, padding) == ActionCount(padding, true, spends, outputs)
  {
    hide ActionCount, NotePlaces, PaymentKeys, ChangePlaces, InputCount, OutputCount, ChangeCount;
    CountsMeaning(s, ORCHARD);
    CountsMeaning(s, IRONWOOD);
  }

  /** The builder reproduces the recorded action count exactly when that count covers the spends and
      either fits the eight-bit floor or is forced by the real spends and outputs. */
  lemma PaddingReproducesCountIff(s: Step)
    requires s.balance.dummyOutputs.Some?
    ensures
      var recorded := RealIronwoodOutputs(s) + s.balance.dummyOutputs.value.ironwood;
      var needed := Max(InputCount(s, IRONWOOD), RealIronwoodOutputs(s));
      IronwoodActionCount(s, IronwoodBundlePadding(s)) == recorded <==>
      recorded >= needed && (recorded <= 255 || recorded == needed)
  {
  }

  /** So if the recorded dummies are the costed count less the real outputs, for whatever padding the
      fee model chose, the builder is back at the costed count. */
  lemma PaddingReconstruction(s: Step, costed: BundlePadding)
    requires s.balance.dummyOutputs.Some?
    requires s.balance.dummyOutputs.value.ironwood + RealIronwoodOutputs(s) == IronwoodActionCount(s, costed)
    ensures IronwoodActionCount(s, IronwoodBundlePadding(s)) == IronwoodActionCount(s, costed)
  {
    PaddingReproducesCountIff(s);
  }

  // ---------- Canonical crossings ----------

  const MARGINAL_FEE := 5000
  const GRACE_ACTIONS := 2
  const P2PKH_STANDARD_INPUT_SIZE := 150
  const P2PKH_STANDARD_OUTPUT_SIZE := 34

  function CeilDiv(x: nat, d: nat): nat
    requires d > 0
  {
    (x + d - 1) / d
  }

  /** "Fee calculation" of ZIP 317, from the total sizes of the transparent inputs and outputs and
      the counts of the shielded bundles. */
  function Zip317Fee(inputBytes: nat, outputBytes: nat, saplingSpends: nat, saplingOutputs: nat,
                     orchardActions: nat, ironwoodActions: nat): nat
  {
    var logicalActions :=
      Max(CeilDiv(inputBytes, P2PKH_STANDARD_INPUT_SIZE), CeilDiv(outputBytes, P2PKH_STANDARD_OUTPUT_SIZE)) +
      Max(saplingSpends, saplingOutputs) + orchardActions + ironwoodActions;
    MARGINAL_FEE * Max(GRACE_ACTIONS, logicalActions)
  }

  /** `t` standard inputs and as many standard outputs cover the bytes, and fewer do not. */
  predicate CoversBytes(t: nat, inputBytes: nat, outputBytes: nat) {
    && inputBytes <= 150 * t && outputBytes <= 34 * t
    && (t > 0 ==> 150 * (t - 1) < inputBytes || 34 * (t - 1) < outputBytes)
  }

  /** The fee is 5000 for each logical action but the first two, which are 10000 together: the transparent part
      as the least number that covers it, Sapling as its spends or its outputs, and every other action. */
  lemma Zip317FeeMeaning(t: nat, u: nat, inputBytes: nat, outputBytes: nat, saplingSpends: nat, saplingOutputs: nat,
                         orchardActions: nat, ironwoodActions: nat)
    requires CoversBytes(t, inputBytes, outputBytes)
    requires u >= saplingSpends && u >= saplingOutputs && (u == saplingSpends || u == saplingOutputs)
    ensures
      var n := t + u + orchardActions + ironwoodActions;
      Zip317Fee(inputBytes, outputBytes, saplingSpends, saplingOutputs, orchardActions, ironwoodActions) ==
      if n <= 2 then 10000 else 5000 * n
  {
    CeilDivIff(inputBytes, 150);
    CeilDivIff(outputBytes, 34);
  }

  lemma CeilDivIff(x: nat, d: nat)
    requires d > 0
    ensures CeilDiv(x, d) * d >= x && (CeilDiv(x, d) > 0 ==> (CeilDiv(x, d) - 1) * d < x)
  {
    var q := CeilDiv(x, d);
    QuotientIff(x + d - 1, d, q);
    assert (q + 1) * d == q * d + d;
    if q > 0 {
      assert (q - 1) * d == q * d - d;
    }
  }

  const CANONICAL_CROSSING_ORCHARD_ACTIONS := 2
  const CANONICAL_CROSSING_IRONWOOD_ACTIONS := 1

  /** `canonical_crossing_fee`: three marginal fees. */
  function CanonicalCrossingFee(): (fee: nat)
    ensures fee == 3 * MARGINAL_FEE
  {
    Zip317Fee(0, 0, 0, 0, CANONICAL_CROSSING_ORCHARD_ACTIONS, CANONICAL_CROSSING_IRONWOOD_ACTIONS)
  }

  /** `Step::sole_ironwood_payment_value`. */
  function SoleIronwoodPaymentValue(s: Step): Option<Zatoshis> {
    var payments := PaymentsTo(IRONWOOD, s.paymentPools, Ascending(s.paymentPools.Keys));
    if |payments| == 1 && payments[0] in s.request then s.request[payments[0]].amount else None
  }

  /** `Step::is_built_as_canonical_crossing`. */
  predicate BuiltAsCanonicalCrossing(s: Step, canonicalFee: nat) {
    && InputCount(s, ORCHARD) == 1
    && InputCount(s, IRONWOOD) == 0
    && ChangeCount(s, IRONWOOD) == 0
    && ChangeCount(s, ORCHARD) <= 1
    && ChangeCount(s, SAPLING) == 0
    && ChangeCount(s, Transparent) == 0
    && SoleIronwoodPaymentValue(s).Some?
    && s.balance.dummyOutputs.Some? && s.balance.dummyOutputs.value.ironwood == 0
    && s.balance.feeRequired == canonicalFee
  }

  /** `Step::is_canonical_crossing`, for given denominations and anchor boundaries. */
  predicate CanonicalCrossing(s: Step, denomination: Zatoshis -> bool, boundary: nat -> bool, canonicalFee: nat) {
    && InputCount(s, ORCHARD) == 1
    && InputCount(s, IRONWOOD) == 0
    && ChangeCount(s, IRONWOOD) == 0
    && ChangeCount(s, ORCHARD) <= 1
    && ChangeCount(s, SAPLING) == 0
    && ChangeCount(s, Transparent) == 0
    && SoleIronwoodPaymentValue(s).Some? && denomination(SoleIronwoodPaymentValue(s).value)
    && s.anchorHeight.Some? && boundary(s.anchorHeight.value)
    && s.balance.feeRequired == canonicalFee
  }

  /** `v` is the amount of the one payment to Ironwood. */
  ghost predicate IsSoleIronwoodPayment(s: Step, v: Zatoshis) {
    exists k :: k in s.request && s.request[k].amount == Some(v) && PaymentKeys(IRONWOOD, s.paymentPools) == {k}
  }

  lemma SoleIronwoodPaymentMeaning(s: Step, v: Zatoshis)
    ensures SoleIronwoodPaymentValue(s) == Some(v) <==> IsSoleIronwoodPayment(s, v)
  {
    hide Ascending;
    var keys := Ascending(s.paymentPools.Keys);
    PaymentsListed(IRONWOOD, s.paymentPools, keys);
    var payments := PaymentsTo(IRONWOOD, s.paymentPools, keys);
    assert Elements(payments) == PaymentKeys(IRONWOOD, s.paymentPools);
    DistinctCount(payments);
    if |payments| == 1 {
      assert payments[0] in payments;
      assert PaymentKeys(IRONWOOD, s.paymentPools) == {payments[0]};
    }
  }

  /** One Orchard note and no Ironwood note is spent, and all change, at most one output, goes to Orchard. */
  ghost predicate CrossesAlone(s: Step) {
    && |NotePlaces(Orchard, s.shieldedInputs)| == 1
    && (forall i :: 0 <= i < |s.shieldedInputs| ==> s.shieldedInputs[i].pool != Ironwood)
    && |s.balance.proposedChange| <= 1
    && (forall i :: 0 <= i < |s.balance.proposedChange| ==> s.balance.proposedChange[i].OutputPool() == ORCHARD)
  }

  lemma CrossesAloneIff(s: Step)
    ensures CrossesAlone(s) <==>
            && InputCount(s, ORCHARD) == 1 && InputCount(s, IRONWOOD) == 0 && ChangeCount(s, IRONWOOD) == 0
            && ChangeCount(s, ORCHARD) <= 1 && ChangeCount(s, SAPLING) == 0 && ChangeCount(s, Transparent) == 0
  {
    NotesCounted(Orchard, s.shieldedInputs);
    NoneInPool(s.shieldedInputs);
    ChangeAllOrchard(s.balance.proposedChange);
  }

  lemma NoneInPool(notes: seq<ReceivedNote>)
    ensures |NotesIn(Ironwood, notes)| == 0 <==> forall i :: 0 <= i < |notes| ==> notes[i].pool != Ironwood
  {
    NotesCounted(Ironwood, notes);
    var places := NotePlaces(Ironwood, notes);
    assert |places| == 0 <==> places == {};
    assert forall i: nat :: i < |notes| && notes[i].pool == Ironwood ==> i in places;
  }

  lemma {:induction false} ChangeAllOrchard(change: seq<ChangeValue>)
    ensures |ChangeIn(ORCHARD, change)| + |ChangeIn(IRONWOOD, change)| + |ChangeIn(SAPLING, change)|
            + |ChangeIn(Transparent, change)| == |change|
    ensures |ChangeIn(ORCHARD, change)| == |change| <==>
            forall i :: 0 <= i < |change| ==> change[i].OutputPool() == ORCHARD
  {
    if change != [] {
      ChangeAllOrchard(change[..|change| - 1]);
      var pool := change[|change| - 1].OutputPool();
      match pool {
        case Transparent =>
        case Shielded(p) => assert p.Sapling? || p.Orchard? || p.Ironwood?;
      }
    }
  }

  /** When a step is a canonical crossing, said on its fields: it crosses alone, its one Ironwood payment is a
      denomination, its anchor is on the grid, and its fee is the canonical one. It is built as one if instead
      the payment merely exists and no Ironwood dummy was costed. */
  lemma CanonicalCrossingIff(s: Step, denomination: Zatoshis -> bool, boundary: nat -> bool, fee: nat)
    ensures CanonicalCrossing(s, denomination, boundary, fee) <==>
            && CrossesAlone(s)
            && (exists v: Zatoshis :: IsSoleIronwoodPayment(s, v) && denomination(v))
            && s.anchorHeight.Some? && boundary(s.anchorHeight.value)
            && s.balance.feeRequired == fee
    ensures BuiltAsCanonicalCrossing(s, fee) <==>
            && CrossesAlone(s)
            && (exists v: Zatoshis :: IsSoleIronwoodPayment(s, v))
            && s.balance.dummyOutputs.Some? && s.balance.dummyOutputs.value.ironwood == 0
            && s.balance.feeRequired == fee
  {
    hide CrossesAlone, IsSoleIronwoodPayment, InputCount, ChangeCount, SoleIronwoodPaymentValue;
    CrossesAloneIff(s);
    forall v: Zatoshis ensures SoleIronwoodPaymentValue(s) == Some(v) <==> IsSoleIronwoodPayment(s, v) {
      SoleIronwoodPaymentMeaning(s, v);
    }
    if SoleIronwoodPaymentValue(s).Some? {
      assert IsSoleIronwoodPayment(s, SoleIronwoodPaymentValue(s).value);
    }
  }

  /** The expiry follows the padding: a crossing the fee model left unpadded is judged built as one,
      and a step whose Ironwood bundle was padded never is. */
  lemma ExpiryFollowsPadding(s: Step, costed: BundlePadding, denomination: Zatoshis -> bool, boundary: nat -> bool,
                             fee: nat)
    requires s.balance.dummyOutputs.Some?
    requires s.balance.dummyOutputs.value.ironwood + RealIronwoodOutputs(s) == IronwoodActionCount(s, costed)
    ensures costed == UNPADDED && CanonicalCrossing(s, denomination, boundary, fee) ==> BuiltAsCanonicalCrossing(s, fee)
    ensures costed == DEFAULT ==> !BuiltAsCanonicalCrossing(s, fee)
  {
    hide Ascending, PaymentsTo, NotesIn, ChangeIn;
  }

  lemma {:induction false} NoPaymentsTo(pool: PoolType, pools: map<nat, PoolType>, keys: seq<nat>)
    requires forall k :: k in keys ==> k in pools
    ensures PaymentsTo(pool, pools, keys) == [] <==> forall k :: k in keys ==> pools[k] != pool
  {
    if keys != [] {
      NoPaymentsTo(pool, pools, keys[1..]);
      assert keys[0] in keys;
      assert forall k :: k in keys <==> k == keys[0] || k in keys[1..];
    }
  }

  /** A step accepted with Ironwood active and judged built as a canonical crossing has exactly the
      shape of one: two Orchard actions at default padding, one Ironwood action at its own. */
  lemma CanonicalCrossingShape(prior: seq<Step>, s: Step, canonicalFee: nat)
    requires Built(true, prior, s)
    requires BuiltAsCanonicalCrossing(s, canonicalFee)
    ensures OrchardActionCount(s, DEFAULT) == CANONICAL_CROSSING_ORCHARD_ACTIONS
    ensures IronwoodActionCount(s, IronwoodBundlePadding(s)) == CANONICAL_CROSSING_IRONWOOD_ACTIONS
  {
    hide Ascending, Built;
    StepAcceptedIff(true, prior, s);
    NoPaymentsTo(ORCHARD, s.paymentPools, Ascending(s.paymentPools.Keys));
    assert OutputCount(s, ORCHARD) == 0;
    assert RealIronwoodOutputs(s) == 1;
  }

  /** What a transaction for the step is charged for: every transparent input and output has a size,
      every Sapling spend and output is counted. */
  datatype Charged = Charged(inputBytes: nat, outputBytes: nat, saplingSpends: nat, saplingOutputs: nat)

  predicate ChargesEverything(s: Step, c: Charged) {
    && (s.transparentInputs != [] || s.priorStepInputs != [] ==> c.inputBytes > 0)
    && (OutputCount(s, Transparent) + ChangeCount(s, Transparent) > 0 ==> c.outputBytes > 0)
    && c.saplingSpends >= InputCount(s, SAPLING)
    && c.saplingOutputs >= OutputCount(s, SAPLING) + ChangeCount(s, SAPLING)
  }

  lemma CeilDivZeroIff(x: nat, d: nat)
    requires d > 0
    ensures CeilDiv(x, d) == 0 <==> x == 0
  {
    if x > 0 {
      QuotientAtLeast(x + d - 1, d, 1);
    } else {
      assert (d - 1) / d == 0;
    }
  }

  /** If moreover its fee follows ZIP 317 for that shape, the step has no Sapling or transparent part
      at all: the canonical fee leaves no room for one. */
  lemma CanonicalCrossingHasNothingElse(prior: seq<Step>, s: Step, c: Charged)
    requires Built(true, prior, s)
    requires BuiltAsCanonicalCrossing(s, CanonicalCrossingFee())
    requires ChargesEverything(s, c)
    requires s.balance.feeRequired ==
             Zip317Fee(c.inputBytes, c.outputBytes, c.saplingSpends, c.saplingOutputs,
                       OrchardActionCount(s, DEFAULT), IronwoodActionCount(s, IronwoodBundlePadding(s)))
    ensures s.transparentInputs == [] && s.priorStepInputs == []
    ensures OutputCount(s, Transparent) == 0 && ChangeCount(s, Transparent) == 0
    ensures InputCount(s, SAPLING) == 0 && OutputCount(s, SAPLING) == 0 && ChangeCount(s, SAPLING) == 0
  {
    hide Built, PaymentsTo, ChangeIn, NotesIn, IronwoodBundlePadding, IronwoodActionCount, OrchardActionCount;
    CeilDivZeroIff(c.inputBytes, P2PKH_STANDARD_INPUT_SIZE);
    CeilDivZeroIff(c.outputBytes, P2PKH_STANDARD_OUTPUT_SIZE);
    CanonicalCrossingShape(prior, s, CanonicalCrossingFee());
  }
}
