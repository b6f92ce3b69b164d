/** Choosing the lock time of the transaction from what its inputs require. */
module LockTime {
  import opened Wrappers
  import opened PartialJoin
  import opened Common
  import opened Transparent

  function TimeOf(x: Input): Option<nat> {
    x.requiredTimeLockTime
  }

  function HeightOf(x: Input): Option<nat> {
    x.requiredHeightLockTime
  }

  predicate AnyRequires(kind: Input -> Option<nat>, inputs: seq<Input>) {
    exists i :: 0 <= i < |inputs| && kind(inputs[i]).Some?
  }

  function Larger(a: Option<nat>, b: Option<nat>): Option<nat> {
    if a.None? then b else if b.None? || b.value < a.value then a else b
  }

  function MaxRequired(kind: Input -> Option<nat>, inputs: seq<Input>): Option<nat> {
    if inputs == [] then None else Larger(kind(inputs[0]), MaxRequired(kind, inputs[1..]))
  }

  /** `determine_lock_time`. Under each guard the maximum is of a non-empty list. */
  function DetermineLockTime(global: Global, inputs: seq<Input>): Option<nat> {
    var timeUnsupported, heightUnsupported := AnyRequires(HeightOf, inputs), AnyRequires(TimeOf, inputs);
    if timeUnsupported && heightUnsupported then None
    else if heightUnsupported then MaxRequired(TimeOf, inputs)
    else if timeUnsupported then MaxRequired(HeightOf, inputs)
    else Some(global.fallbackLockTime.UnwrapOr(0))
  }

  /** `m` is required by some input and no input requires more. */
  ghost predicate IsMaximum(m: nat, kind: Input -> Option<nat>, inputs: seq<Input>) {
    && (exists i :: 0 <= i < |inputs| && kind(inputs[i]) == Some(m))
    && (forall i :: 0 <= i < |inputs| && kind(inputs[i]).Some? ==> kind(inputs[i]).value <= m)
  }

  lemma {:induction false} MaxRequiredIsMaximum(kind: Input -> Option<nat>, inputs: seq<Input>)
    ensures MaxRequired(kind, inputs).Some? <==> AnyRequires(kind, inputs)
    ensures MaxRequired(kind, inputs).Some? ==> IsMaximum(MaxRequired(kind, inputs).value, kind, inputs)
  {
    if inputs != [] {
      var rest := inputs[1..];
      MaxRequiredIsMaximum(kind, rest);
      assert forall i :: 0 <= i < |rest| ==> rest[i] == inputs[i + 1];
      var m := MaxRequired(kind, inputs);
      if m.Some? && m != kind(inputs[0]) {
        var j :| 0 <= j < |rest| && kind(rest[j]) == m;
        assert kind(inputs[j + 1]) == m;
      }
    }
  }

  /** It fails exactly when both kinds occur. Otherwise the choice is the largest requirement of the
      one kind that occurs, or the fallback when none does. */
  lemma LockTimeMeaning(global: Global, inputs: seq<Input>)
    ensures DetermineLockTime(global, inputs).None? <==> AnyRequires(TimeOf, inputs) && AnyRequires(HeightOf, inputs)
    ensures forall t :: DetermineLockTime(global, inputs) == Some(t) <==>
              || (AnyRequires(TimeOf, inputs) && !AnyRequires(HeightOf, inputs) && IsMaximum(t, TimeOf, inputs))
              || (AnyRequires(HeightOf, inputs) && !AnyRequires(TimeOf, inputs) && IsMaximum(t, HeightOf, inputs))
              || (&& !AnyRequires(TimeOf, inputs) && !AnyRequires(HeightOf, inputs)
                  && t == global.fallbackLockTime.UnwrapOr(0))
  {
    MaxRequiredIsMaximum(TimeOf, inputs);
    MaxRequiredIsMaximum(HeightOf, inputs);
  }

  lemma RequirementPermutes(kind: Input -> Option<nat>, inputs: seq<Input>, others: seq<Input>)
    requires multiset(inputs) == multiset(others)
    ensures AnyRequires(kind, inputs) <==> AnyRequires(kind, others)
  {
    if i :| 0 <= i < |inputs| && kind(inputs[i]).Some? {
      var j := SameElements(others, inputs, i);
    }
    if i :| 0 <= i < |others| && kind(others[i]).Some? {
      var j := SameElements(inputs, others, i);
    }
  }

  lemma MaximumPermutes(m: nat, kind: Input -> Option<nat>, inputs: seq<Input>, others: seq<Input>)
    requires multiset(inputs) == multiset(others)
    requires IsMaximum(m, kind, inputs)
    ensures IsMaximum(m, kind, others)
  {
    var i :| 0 <= i < |inputs| && kind(inputs[i]) == Some(m);
    var j := SameElements(others, inputs, i);
    forall k | 0 <= k < |others| && kind(others[k]).Some? ensures kind(others[k]).value <= m {
      var l := SameElements(inputs, others, k);
    }
  }

  /** The choice does not depend on the order of the inputs. */
  lemma LockTimeOrderIrrelevant(global: Global, inputs: seq<Input>, others: seq<Input>)
    requires multiset(inputs) == multiset(others)
    ensures DetermineLockTime(global, inputs) == DetermineLockTime(global, others)
  {
    RequirementPermutes(TimeOf, inputs, others);
    RequirementPermutes(HeightOf, inputs, others);
    LockTimeMeaning(global, inputs);
    LockTimeMeaning(global, others);
    if DetermineLockTime(global, inputs).Some? {
      var t := DetermineLockTime(global, inputs).value;
      if AnyRequires(TimeOf, inputs) {
        MaximumPermutes(t, TimeOf, inputs, others);
      } else if AnyRequires(HeightOf, inputs) {
        MaximumPermutes(t, HeightOf, inputs, others);
      }
    }
  }

  // ---------- BIP 370, "Determining Lock Time" ----------

  /** An input supports a kind unless it requires only the other one. */
  predicate SupportedByAll(kind: Input -> Option<nat>, other: Input -> Option<nat>, inputs: seq<Input>) {
    forall i :: 0 <= i < |inputs| && other(inputs[i]).Some? ==> kind(inputs[i]).Some?
  }

  /** The rule of the BIP: with both kinds possible the height is chosen. */
  function Bip370LockTime(global: Global, inputs: seq<Input>): Option<nat> {
    if !AnyRequires(TimeOf, inputs) && !AnyRequires(HeightOf, inputs) then
      Some(global.fallbackLockTime.UnwrapOr(0))
    else if SupportedByAll(HeightOf, TimeOf, inputs) then MaxRequired(HeightOf, inputs)
    else if SupportedByAll(TimeOf, HeightOf, inputs) then MaxRequired(TimeOf, inputs)
    else None
  }

  /** The code departs from the BIP exactly when both kinds occur although all inputs support one of
      them: it fails where the BIP chooses. */
  lemma LockTimeFollowsBip370Iff(global: Global, inputs: seq<Input>)
    ensures DetermineLockTime(global, inputs) == Bip370LockTime(global, inputs) <==>
            !(&& AnyRequires(TimeOf, inputs) && AnyRequires(HeightOf, inputs)
              && (SupportedByAll(HeightOf, TimeOf, inputs) || SupportedByAll(TimeOf, HeightOf, inputs)))
  {
    MaxRequiredIsMaximum(TimeOf, inputs);
    MaxRequiredIsMaximum(HeightOf, inputs);
  }

  /** The smallest such case: a single input that sets both kinds. The BIP takes its height. */
  lemma SingleInputWithBothKinds(global: Global, x: Input)
    requires TimeOf(x).Some? && HeightOf(x).Some?
    ensures DetermineLockTime(global, [x]).None? && Bip370LockTime(global, [x]) == HeightOf(x)
  {
    assert TimeOf([x][0]).Some? && HeightOf([x][0]).Some?;
    assert MaxRequired(HeightOf, [x]) == Larger(HeightOf(x), MaxRequired(HeightOf, []));
  }

  /** When no input sets both kinds the code follows the BIP. */
  lemma LockTimeFollowsBip370(global: Global, inputs: seq<Input>)
    requires forall i :: 0 <= i < |inputs| ==> TimeOf(inputs[i]).None? || HeightOf(inputs[i]).None?
    ensures DetermineLockTime(global, inputs) == Bip370LockTime(global, inputs)
  {
    LockTimeFollowsBip370Iff(global, inputs);
  }
}
