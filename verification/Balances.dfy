/**
 Account balances: buckets of value that share one cap, updated in place.

 Each bucket refines an unbounded integer. Every update either adds exactly the given value to one
 bucket or changes nothing, and the additions the code unwraps cannot fail.
 */
module Balances {
  import opened Wrappers
  import opened Sums

  /** The value of the five buckets. `uneconomic` is capped on its own and is not part of the total. */
  datatype Buckets = Buckets(spendable: nat, locked: nat, pendingChange: nat, pendingSpendable: nat, uneconomic: nat) {
    function Total(): nat {
      spendable + locked + pendingChange + pendingSpendable
    }

    predicate Valid() {
      Total() <= MAX_MONEY && uneconomic <= MAX_MONEY
    }
  }

  const ZERO := Buckets(0, 0, 0, 0, 0)

  datatype Bucket = Spendable | Locked | PendingChange | PendingSpendable | Uneconomic

  /** Adding to one bucket, without any bound. */
  function Added(b: Buckets, bucket: Bucket, value: nat): Buckets {
    match bucket
    case Spendable => b.(spendable := b.spendable + value)
    case Locked => b.(locked := b.locked + value)
    case PendingChange => b.(pendingChange := b.pendingChange + value)
    case PendingSpendable => b.(pendingSpendable := b.pendingSpendable + value)
    case Uneconomic => b.(uneconomic := b.uneconomic + value)
  }

  class Balance {
    var spendableValue: Zatoshis
    var lockedValue: Zatoshis
    var changePendingConfirmation: Zatoshis
    var valuePendingSpendability: Zatoshis
    var uneconomicValue: Zatoshis

    function Value(): Buckets
      reads this
    {
      Buckets(spendableValue, lockedValue, changePendingConfirmation, valuePendingSpendability, uneconomicValue)
    }

    constructor Zero()
      ensures Value() == ZERO
    {
      spendableValue, lockedValue, changePendingConfirmation := 0, 0, 0;
      valuePendingSpendability, uneconomicValue := 0, 0;
    }

    /** `check_total_adding`. */
    method CheckTotalAdding(value: Zatoshis) returns (r: Option<Zatoshis>)
      ensures r.Some? <==> Value().Total() + value <= MAX_MONEY
      ensures r.Some? ==> r.value == Value().Total() + value
    {
      var sum := CheckedAdd(spendableValue, lockedValue);
      if sum.Some? {
        sum := CheckedAdd(sum.value, changePendingConfirmation);
      }
      if sum.Some? {
        sum := CheckedAdd(sum.value, valuePendingSpendability);
      }
      if sum.Some? {
        sum := CheckedAdd(sum.value, value);
      }
      return sum;
    }

    /** `add_spendable_value`. The addition after the check is the one the code unwraps. */
    method AddSpendableValue(value: Zatoshis) returns (ok: bool)
      modifies this
      ensures ok <==> Added(old(Value()), Spendable, value).Total() <= MAX_MONEY
      ensures Value() == if ok then Added(old(Value()), Spendable, value) else old(Value())
    {
      var total := CheckTotalAdding(value);
      if total.None? {
        return false;
      }
      spendableValue := CheckedAdd(spendableValue, value).Extract();
      return true;
    }

    method AddLockedValue(value: Zatoshis) returns (ok: bool)
      modifies this
      ensures ok <==> Added(old(Value()), Locked, value).Total() <= MAX_MONEY
      ensures Value() == if ok then Added(old(Value()), Locked, value) else old(Value())
    {
      var total := CheckTotalAdding(value);
      if total.None? {
        return false;
      }
      lockedValue := CheckedAdd(lockedValue, value).Extract();
      return true;
    }

    method AddPendingChangeValue(value: Zatoshis) returns (ok: bool)
      modifies this
      ensures ok <==> Added(old(Value()), PendingChange, value).Total() <= MAX_MONEY
      ensures Value() == if ok then Added(old(Value()), PendingChange, value) else old(Value())
    {
      var total := CheckTotalAdding(value);
      if total.None? {
        return false;
      }
      changePendingConfirmation := CheckedAdd(changePendingConfirmation, value).Extract();
      return true;
    }

    method AddPendingSpendableValue(value: Zatoshis) returns (ok: bool)
      modifies this
      ensures ok <==> Added(old(Value()), PendingSpendable, value).Total() <= MAX_MONEY
      ensures Value() == if ok then Added(old(Value()), PendingSpendable, value) else old(Value())
    {
      var total := CheckTotalAdding(value);
      if total.None? {
        return false;
      }
      valuePendingSpendability := CheckedAdd(valuePendingSpendability, value).Extract();
      return true;
    }

    method AddUneconomicValue(value: Zatoshis) returns (ok: bool)
      modifies this
      ensures ok <==> Added(old(Value()), Uneconomic, value).uneconomic <= MAX_MONEY
      ensures Value() == if ok then Added(old(Value()), Uneconomic, value) else old(Value())
    {
      var sum := CheckedAdd(uneconomicValue, value);
      if sum.None? {
        return false;
      }
      uneconomicValue := sum.value;
      return true;
    }

    /** One update, whichever it is. A valid balance stays valid; a rejected update changes nothing. */
    method Add(bucket: Bucket, value: Zatoshis) returns (ok: bool)
      requires Value().Valid()
      modifies this
      ensures Value() == Step(old(Value()), Update(bucket, value))
      ensures ok <==> Added(old(Value()), bucket, value).Valid()
      ensures Value().Valid()
    {
      match bucket {
        case Spendable => ok := AddSpendableValue(value);
        case Locked => ok := AddLockedValue(value);
        case PendingChange => ok := AddPendingChangeValue(value);
        case PendingSpendable => ok := AddPendingSpendableValue(value);
        case Uneconomic => ok := AddUneconomicValue(value);
      }
    }

    /** A callback made of additions, passing on the first failure. */
    method AddAll(updates: seq<Update>) returns (ok: bool)
      requires Value().Valid()
      modifies this
      ensures Outcome(Value(), ok) == Applied(old(Value()), updates)
    {
      hide Buckets.Valid, Added;
      var i := 0;
      while i < |updates|
        invariant 0 <= i <= |updates|
        invariant Value().Valid()
        invariant Applied(old(Value()), updates[..i]) == Outcome(Value(), true)
      {
        assert updates[..i + 1][..i] == updates[..i];
        ok := Add(updates[i].bucket, updates[i].value);
        if !ok {
          AppliedStops(old(Value()), updates, i + 1);
          return;
        }
        i := i + 1;
      }
      assert updates[..i] == updates;
      ok := true;
    }

    /** Sets all buckets, as assigning through a mutable reference does. */
    method Replace(b: Buckets)
      requires b.Valid()
      modifies this
      ensures Value() == b
    {
      spendableValue, lockedValue, changePendingConfirmation := b.spendable, b.locked, b.pendingChange;
      valuePendingSpendability, uneconomicValue := b.pendingSpendable, b.uneconomic;
    }

    /** `total`: the sum the code expects not to overflow. */
    method Total() returns (total: Zatoshis)
      requires Value().Valid()
      ensures total == Value().Total()
    {
      var sum := CheckedAdd(spendableValue, lockedValue).Extract();
      sum := CheckedAdd(sum, changePendingConfirmation).Extract();
      total := CheckedAdd(sum, valuePendingSpendability).Extract();
    }
  }

  // ---------- Runs of updates ----------

  datatype Update = Update(bucket: Bucket, value: Zatoshis)

  /** What an update does: add without bound if the result is valid, nothing otherwise. */
  function Step(b: Buckets, u: Update): Buckets {
    if Added(b, u.bucket, u.value).Valid() then Added(b, u.bucket, u.value) else b
  }

  function Run(b: Buckets, updates: seq<Update>): Buckets {
    if updates == [] then b else Step(Run(b, updates[..|updates| - 1]), updates[|updates| - 1])
  }

  function RunUnbounded(b: Buckets, updates: seq<Update>): Buckets {
    if updates == [] then b
    else
      var u := updates[|updates| - 1];
      Added(RunUnbounded(b, updates[..|updates| - 1]), u.bucket, u.value)
  }

  /** Bucket by bucket, `a` has no more than `b`. */
  predicate AtMost(a: Buckets, b: Buckets) {
    && a.spendable <= b.spendable && a.locked <= b.locked && a.pendingChange <= b.pendingChange
    && a.pendingSpendable <= b.pendingSpendable && a.uneconomic <= b.uneconomic
  }

  /** A run of updates from a valid balance stays valid, and it is the unbounded run exactly as long
      as the unbounded result is in range; otherwise some update was rejected and it falls short. */
  lemma {:induction false} RunRefinesUnbounded(b: Buckets, updates: seq<Update>)
    requires b.Valid()
    ensures Run(b, updates).Valid()
    ensures AtMost(Run(b, updates), RunUnbounded(b, updates))
    ensures Run(b, updates) == RunUnbounded(b, updates) <==> RunUnbounded(b, updates).Valid()
  {
    if updates != [] {
      RunRefinesUnbounded(b, updates[..|updates| - 1]);
    }
  }

  // ---------- Callbacks ----------

  /** What a callback leaves in a balance, and whether it succeeded. */
  datatype Outcome = Outcome(after: Buckets, ok: bool)

  /** Any closure over a balance. It can do no other than leave a valid one. */
  type Callback = Buckets -> Outcome

  ghost predicate KeepsValid(callback: Callback) {
    forall b: Buckets :: b.Valid() ==> callback(b).after.Valid()
  }

  /** Additions one after the other, up to the first that fails. */
  function Applied(b: Buckets, updates: seq<Update>): Outcome {
    if updates == [] then Outcome(b, true)
    else
      var u := updates[|updates| - 1];
      var before := Applied(b, updates[..|updates| - 1]);
      if before.ok && Added(before.after, u.bucket, u.value).Valid()
      then Outcome(Added(before.after, u.bucket, u.value), true)
      else Outcome(before.after, false)
  }

  function Additions(updates: seq<Update>): Callback {
    b => Applied(b, updates)
  }

  lemma AppliedOne(b: Buckets, u: Update)
    ensures Applied(b, [u]) ==
            if Added(b, u.bucket, u.value).Valid()
            then Outcome(Added(b, u.bucket, u.value), true) else Outcome(b, false)
  {
    assert [u][..0] == [];
  }

  lemma {:induction false} AppliedStops(b: Buckets, updates: seq<Update>, n: nat)
    requires n <= |updates| && !Applied(b, updates[..n]).ok
    ensures Applied(b, updates) == Applied(b, updates[..n])
  {
    if n == |updates| {
      assert updates[..n] == updates;
    } else {
      assert updates[..|updates| - 1][..n] == updates[..n];
      AppliedStops(b, updates[..|updates| - 1], n);
    }
  }

  /** What an addition contributes to the total: uneconomic value contributes nothing. */
  function Counted(u: Update): nat {
    if u.bucket == Uneconomic then 0 else u.value
  }

  /** Additions all succeed exactly when the unbounded result is in range, and then give it. */
  lemma {:induction false} AppliedMeaning(b: Buckets, updates: seq<Update>)
    requires b.Valid()
    ensures Applied(b, updates).after.Valid()
    ensures Applied(b, updates).ok <==> RunUnbounded(b, updates).Valid()
    ensures Applied(b, updates).ok ==> Applied(b, updates).after == RunUnbounded(b, updates)
    ensures RunUnbounded(b, updates).Total() == b.Total() + SumOf(Counted, updates)
  {
    if updates != [] {
      AppliedMeaning(b, updates[..|updates| - 1]);
    }
  }

  /** Some addition of a positive value comes before anything went out of range. */
  ghost predicate SomethingFits(b: Buckets, updates: seq<Update>) {
    exists j :: 0 < j <= |updates| && updates[j - 1].value > 0 && RunUnbounded(b, updates[..j]).Valid()
  }

  lemma {:induction false} SomethingFitsStep(b: Buckets, updates: seq<Update>)
    requires updates != []
    ensures
      var n := |updates| - 1;
      SomethingFits(b, updates) <==>
      SomethingFits(b, updates[..n]) || (updates[n].value > 0 && RunUnbounded(b, updates).Valid())
  {
    hide RunUnbounded, Buckets.Valid;
    var n := |updates| - 1;
    var front := updates[..n];
    assert updates[..n + 1] == updates;
    forall j | 0 < j <= n ensures front[..j] == updates[..j] && front[j - 1] == updates[j - 1] {
    }
    if SomethingFits(b, front) {
      var j :| 0 < j <= n && front[j - 1].value > 0 && RunUnbounded(b, front[..j]).Valid();
      assert updates[j - 1].value > 0 && RunUnbounded(b, updates[..j]).Valid();
    }
    if SomethingFits(b, updates) {
      var j :| 0 < j <= n + 1 && updates[j - 1].value > 0 && RunUnbounded(b, updates[..j]).Valid();
      assert j <= n ==> front[j - 1].value > 0 && RunUnbounded(b, front[..j]).Valid();
    }
  }

  lemma {:induction false} AppliedChangesIff(b: Buckets, updates: seq<Update>)
    requires b.Valid()
    ensures AtMost(b, Applied(b, updates).after)
    ensures Applied(b, updates).after != b <==> SomethingFits(b, updates)
  {
    if updates != [] {
      AppliedChangesIff(b, updates[..|updates| - 1]);
      AppliedMeaning(b, updates);
      SomethingFitsStep(b, updates);
    }
  }

  // ---------- Accounts ----------

  datatype Pool = Sapling | Orchard | Ironwood | UnshieldedRegular | UnshieldedCoinbase

  /** The value of an account: one balance for each pool. */
  datatype Account = Account(sapling: Buckets, orchard: Buckets, ironwood: Buckets, regular: Buckets,
                             coinbase: Buckets) {
    function Get(pool: Pool): Buckets {
      match pool
      case Sapling => sapling
      case Orchard => orchard
      case Ironwood => ironwood
      case UnshieldedRegular => regular
      case UnshieldedCoinbase => coinbase
    }

    function With(pool: Pool, b: Buckets): Account {
      match pool
      case Sapling => this.(sapling := b)
      case Orchard => this.(orchard := b)
      case Ironwood => this.(ironwood := b)
      case UnshieldedRegular => this.(regular := b)
      case UnshieldedCoinbase => this.(coinbase := b)
    }

    function Total(): nat {
      sapling.Total() + orchard.Total() + ironwood.Total() + regular.Total() + coinbase.Total()
    }

    /** Every balance is valid by itself; the account as a whole may still be over the cap. */
    predicate PoolsValid() {
      sapling.Valid() && orchard.Valid() && ironwood.Valid() && regular.Valid() && coinbase.Valid()
    }
  }

  class AccountBalance {
    const sapling: Balance
    const orchard: Balance
    const ironwood: Balance
    const regular: Balance
    const coinbase: Balance

    constructor Zero()
      ensures Distinct() && Value() == Account(ZERO, ZERO, ZERO, ZERO, ZERO)
    {
      sapling := new Balance.Zero();
      orchard := new Balance.Zero();
      ironwood := new Balance.Zero();
      regular := new Balance.Zero();
      coinbase := new Balance.Zero();
    }

    ghost predicate Distinct() {
      |{sapling, orchard, ironwood, regular, coinbase}| == 5
    }

    ghost function Value(): Account
      reads sapling, orchard, ironwood, regular, coinbase
    {
      Account(sapling.Value(), orchard.Value(), ironwood.Value(), regular.Value(), coinbase.Value())
    }

    function Pick(pool: Pool): Balance {
      match pool
      case Sapling => sapling
      case Orchard => orchard
      case Ironwood => ironwood
      case UnshieldedRegular => regular
      case UnshieldedCoinbase => coinbase
    }

    /** `check_total`. */
    method CheckTotal() returns (r: Option<Zatoshis>)
      requires Value().PoolsValid()
      ensures r.Some? <==> Value().Total() <= MAX_MONEY
      ensures r.Some? ==> r.value == Value().Total()
    {
      var s := sapling.Total();
      var o := orchard.Total();
      var i := ironwood.Total();
      var u := regular.Total();
      var c := coinbase.Total();
      var sum := CheckedAdd(s, o);
      if sum.Some? {
        sum := CheckedAdd(sum.value, i);
      }
      if sum.Some? {
        sum := CheckedAdd(sum.value, u);
      }
      if sum.Some? {
        sum := CheckedAdd(sum.value, c);
      }
      return sum;
    }

    /** The five `with_..._balance_mut` methods: the total is checked after the callback has changed the
        balance, and neither a failed callback nor a failed check undoes the change. */
    method WithBalanceMut(pool: Pool, callback: Callback) returns (ok: bool)
      requires Distinct() && Value().PoolsValid() && KeepsValid(callback)
      modifies Pick(pool)
      ensures Value() == AccountStep(old(Value()), pool, callback)
      ensures ok <==> AccountAccepts(old(Value()), pool, callback)
    {
      var outcome := callback(Pick(pool).Value());
      Pick(pool).Replace(outcome.after);
      ok := outcome.ok;
      if ok {
        var total := CheckTotal();
        ok := total.Some?;
      }
    }
  }

  function AccountStep(a: Account, pool: Pool, callback: Callback): Account {
    a.With(pool, callback(a.Get(pool)).after)
  }

  /** The callback succeeds, and the account is within the cap after it. */
  predicate AccountAccepts(a: Account, pool: Pool, callback: Callback) {
    callback(a.Get(pool)).ok && AccountStep(a, pool, callback).Total() <= MAX_MONEY
  }

  datatype AccountUpdate = AccountUpdate(pool: Pool, callback: Callback)

  function AccountRun(a: Account, updates: seq<AccountUpdate>): Account {
    if |updates| == 0 then a
    else
      var last := updates[|updates| - 1];
      AccountStep(AccountRun(a, updates[..|updates| - 1]), last.pool, last.callback)
  }

  predicate AllAccepted(a: Account, updates: seq<AccountUpdate>) {
    |updates| == 0 ||
    var front, last := updates[..|updates| - 1], updates[|updates| - 1];
    AllAccepted(a, front) && AccountAccepts(AccountRun(a, front), last.pool, last.callback)
  }

  /** As long as every update succeeds the account stays within the cap, whatever the callbacks do; every
      single balance stays valid in any case. */
  lemma {:induction false} AccountRunWithinCap(a: Account, updates: seq<AccountUpdate>)
    requires a.PoolsValid() && a.Total() <= MAX_MONEY
    requires forall i :: 0 <= i < |updates| ==> KeepsValid(updates[i].callback)
    ensures AccountRun(a, updates).PoolsValid()
    ensures AllAccepted(a, updates) ==> AccountRun(a, updates).Total() <= MAX_MONEY
  {
    if |updates| > 0 {
      hide Buckets.Valid, Account.Total;
      AccountRunWithinCap(a, updates[..|updates| - 1]);
      assert KeepsValid(updates[|updates| - 1].callback);
    }
  }

  lemma StepTotal(a: Account, pool: Pool, callback: Callback)
    ensures AccountStep(a, pool, callback).Total() ==
            a.Total() - a.Get(pool).Total() + callback(a.Get(pool)).after.Total()
  {
    hide Buckets.Total;
  }

  lemma AdditionsKeepValid(updates: seq<Update>)
    ensures KeepsValid(Additions(updates))
  {
    forall b: Buckets | b.Valid() ensures Additions(updates)(b).after.Valid() {
      AppliedMeaning(b, updates);
    }
  }

  /** Additions made together to one pool. */
  datatype Batch = Batch(pool: Pool, updates: seq<Update>)

  function CountedBatch(batch: Batch): nat {
    SumOf(Counted, batch.updates)
  }

  function Updates(batches: seq<Batch>): seq<AccountUpdate> {
    seq(|batches|, i requires 0 <= i < |batches| => AccountUpdate(batches[i].pool, Additions(batches[i].updates)))
  }

  /** When every update succeeds and they are additions, the account total is the sum of all the values
      added, and within the cap. */
  lemma {:induction false} AdditionsAddUp(a: Account, batches: seq<Batch>)
    requires a.PoolsValid() && a.Total() <= MAX_MONEY
    ensures AccountRun(a, Updates(batches)).PoolsValid()
    ensures AllAccepted(a, Updates(batches)) ==>
              AccountRun(a, Updates(batches)).Total() == a.Total() + SumOf(CountedBatch, batches) <= MAX_MONEY
  {
    hide Buckets.Valid, Account.Total, Applied;
    forall i | 0 <= i < |batches| ensures KeepsValid(Updates(batches)[i].callback) {
      AdditionsKeepValid(batches[i].updates);
    }
    AccountRunWithinCap(a, Updates(batches));
    if batches != [] {
      var front, last := batches[..|batches| - 1], batches[|batches| - 1];
      AdditionsAddUp(a, front);
      assert Updates(batches)[..|batches| - 1] == Updates(front);
      var before := AccountRun(a, Updates(front));
      StepTotal(before, last.pool, Additions(last.updates));
      AppliedMeaning(before.Get(last.pool), last.updates);
    }
  }

  /** From within the cap, additions are rejected and yet kept exactly when they all fit their balance but
      not the account, or when not all fit their balance but something does before the first that fails. */
  lemma RejectedUpdatesMayBeKept(a: Account, pool: Pool, updates: seq<Update>)
    requires a.PoolsValid() && a.Total() <= MAX_MONEY
    ensures
      var b := a.Get(pool);
      !AccountAccepts(a, pool, Additions(updates)) && AccountStep(a, pool, Additions(updates)) != a <==>
      if RunUnbounded(b, updates).Valid() then a.Total() + SumOf(Counted, updates) > MAX_MONEY
      else SomethingFits(b, updates)
  {
    var b := a.Get(pool);
    AppliedMeaning(b, updates);
    AppliedChangesIff(b, updates);
    StepTotal(a, pool, Additions(updates));
    hide Buckets.Valid, Account.Total, Applied, RunUnbounded, SomethingFits;
    assert AccountStep(a, pool, Additions(updates)) != a <==> Applied(b, updates).after != b;
  }

  /** For a single addition: it fits its own balance but not the account. */
  lemma RejectedUpdateMayBeKept(a: Account, pool: Pool, u: Update)
    requires a.PoolsValid() && a.Total() <= MAX_MONEY
    ensures !AccountAccepts(a, pool, Additions([u])) && AccountStep(a, pool, Additions([u])) != a <==>
            && u.bucket != Uneconomic
            && a.Get(pool).Total() + u.value <= MAX_MONEY
            && a.Total() + u.value > MAX_MONEY
    ensures !AccountAccepts(a, pool, Additions([u])) && AccountStep(a, pool, Additions([u])) != a <==>
            AccountStep(a, pool, Additions([u])).Total() > MAX_MONEY
  {
    var b := a.Get(pool);
    AppliedOne(b, u);
    StepTotal(a, pool, Additions([u]));
    RejectedUpdatesMayBeKept(a, pool, [u]);
    assert [u][..0] == [] && [u][..1] == [u];
    assert RunUnbounded(b, [u]) == Added(b, u.bucket, u.value);
    assert SumOf(Counted, [u]) == Counted(u);
    assert SomethingFits(b, [u]) ==> RunUnbounded(b, [u]).Valid();
    hide Account.Total;
  }

  /** An account that holds all there can be takes one more zatoshi and reports an error. */
  lemma FullAccountKeepsRejectedUpdate()
    ensures
      var full := Account(ZERO, ZERO, ZERO, ZERO.(spendable := MAX_MONEY), ZERO);
      var one := Additions([Update(Spendable, 1)]);
      && full.PoolsValid() && full.Total() == MAX_MONEY
      && !AccountAccepts(full, Sapling, one) && AccountStep(full, Sapling, one).Total() == MAX_MONEY + 1
  {
    hide Applied;
    AppliedOne(ZERO, Update(Spendable, 1));
  }

  /** Adding two balances, as `unshielded_balance` does with the two transparent ones. */
  function Plus(x: Buckets, y: Buckets): Option<Buckets> {
    var sum := Buckets(x.spendable + y.spendable, x.locked + y.locked, x.pendingChange + y.pendingChange,
                       x.pendingSpendable + y.pendingSpendable, x.uneconomic + y.uneconomic);
    if && sum.spendable <= MAX_MONEY && sum.locked <= MAX_MONEY && sum.pendingChange <= MAX_MONEY
       && sum.pendingSpendable <= MAX_MONEY && sum.uneconomic <= MAX_MONEY && sum.Total() <= MAX_MONEY
    then Some(sum) else None
  }

  /** The sum of two valid balances is what adding the buckets of one to the other gives, if that is in range. */
  lemma PlusMeaning(x: Buckets, y: Buckets)
    requires x.Valid() && y.Valid()
    ensures
      var added := RunUnbounded(x, [Update(Spendable, y.spendable), Update(Locked, y.locked),
                                    Update(PendingChange, y.pendingChange),
                                    Update(PendingSpendable, y.pendingSpendable), Update(Uneconomic, y.uneconomic)]);
      Plus(x, y) == if added.Valid() then Some(added) else None
  {
    var us := [Update(Spendable, y.spendable), Update(Locked, y.locked), Update(PendingChange, y.pendingChange),
               Update(PendingSpendable, y.pendingSpendable), Update(Uneconomic, y.uneconomic)];
    assert us[..4][..3] == us[..3] && us[..3][..2] == us[..2] && us[..2][..1] == us[..1] && us[..1][..0] == [];
    assert RunUnbounded(x, us[..1]) == Added(x, Spendable, y.spendable);
    assert RunUnbounded(x, us[..2]) == Added(RunUnbounded(x, us[..1]), Locked, y.locked);
    assert RunUnbounded(x, us[..3]) == Added(RunUnbounded(x, us[..2]), PendingChange, y.pendingChange);
    assert RunUnbounded(x, us[..4]) == Added(RunUnbounded(x, us[..3]), PendingSpendable, y.pendingSpendable);
  }

  /** For an account within the cap, the sum that `unshielded_balance` expects to exist does so exactly
      when the two uneconomic values are in range together, which nothing enforces. */
  lemma UnshieldedBalanceExistsIff(a: Account)
    requires a.PoolsValid() && a.Total() <= MAX_MONEY
    ensures Plus(a.regular, a.coinbase).Some? <==> a.regular.uneconomic + a.coinbase.uneconomic <= MAX_MONEY
  {
  }

  /** From any account within the cap, two updates that both succeed can take it to where that sum
      does not exist: each uneconomic value is capped, but not the two together. */
  lemma UnshieldedBalanceCanFail(a: Account, x: Zatoshis, y: Zatoshis)
    requires a.PoolsValid() && a.Total() <= MAX_MONEY
    requires a.regular.uneconomic + x <= MAX_MONEY && a.coinbase.uneconomic + y <= MAX_MONEY
    requires a.regular.uneconomic + x + a.coinbase.uneconomic + y > MAX_MONEY
    ensures
      var one := AccountStep(a, UnshieldedRegular, Additions([Update(Uneconomic, x)]));
      var two := AccountStep(one, UnshieldedCoinbase, Additions([Update(Uneconomic, y)]));
      && AccountAccepts(a, UnshieldedRegular, Additions([Update(Uneconomic, x)]))
      && AccountAccepts(one, UnshieldedCoinbase, Additions([Update(Uneconomic, y)]))
      && Plus(two.regular, two.coinbase).None?
  {
    hide Applied;
    AppliedOne(a.regular, Update(Uneconomic, x));
    AppliedOne(a.coinbase, Update(Uneconomic, y));
  }
}
