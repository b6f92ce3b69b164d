/**
 Whole proposals: the checks across steps, and what they imply for all steps together. Value is
 conserved, nothing is spent twice, and the Orchard pool only drains.
 */
module ProposalRuns {
  import opened Wrappers
  import opened Sums
  import opened Proposals

  // ---------- Validating the series ----------

  function UtxoRef(u: Utxo): OutputRef {
    OutputRef(u.txid, Transparent, u.index)
  }

  function NoteRef(n: ReceivedNote): OutputRef {
    OutputRef(n.txid, Shielded(n.pool), n.index)
  }

  /** The outputs on the chain that a step spends, in the order they are checked. */
  function ChainRefs(s: Step): seq<OutputRef> {
    seq(|s.transparentInputs|, i requires 0 <= i < |s.transparentInputs| => UtxoRef(s.transparentInputs[i])) +
    seq(|s.shieldedInputs|, i requires 0 <= i < |s.shieldedInputs| => NoteRef(s.shieldedInputs[i]))
  }

  /** The bounds check of the whole-proposal pass: payments are counted, not looked up. */
  predicate InBounds(step: Step, index: StepOutputIndex) {
    match index
    case PaymentIndex(i) => i < |step.request|
    case ChangeIndex(i) => i < |step.balance.proposedChange|
  }

  /** Walks the references of step `i`, collecting them in `consumed`. */
  function CheckPriorRefs(steps: seq<Step>, i: nat, refs: seq<StepOutput>, consumed: set<StepOutput>)
    : Result<set<StepOutput>, ProposalError>
    requires i <= |steps|
  {
    if refs == [] then Ok(consumed)
    else if refs[0].stepIndex >= i || !InBounds(steps[refs[0].stepIndex], refs[0].outputIndex) then
      Err(ReferenceError(refs[0]))
    else if refs[0] in consumed then Err(StepDoubleSpend(refs[0]))
    else CheckPriorRefs(steps, i, refs[1..], consumed + {refs[0]})
  }

  function CheckChainRefs(refs: seq<OutputRef>, consumed: set<OutputRef>): Result<set<OutputRef>, ProposalError> {
    if refs == [] then Ok(consumed)
    else if refs[0] in consumed then Err(ChainDoubleSpend(refs[0]))
    else CheckChainRefs(refs[1..], consumed + {refs[0]})
  }

  function CheckSteps(steps: seq<Step>, i: nat, prior: set<StepOutput>, chain: set<OutputRef>): Option<ProposalError>
    requires i <= |steps|
    decreases |steps| - i
  {
    if i == |steps| then None
    else
      match CheckPriorRefs(steps, i, steps[i].priorStepInputs, prior)
      case Err(e) => Some(e)
      case Ok(prior') =>
        match CheckChainRefs(ChainRefs(steps[i]), chain)
        case Err(e) => Some(e)
        case Ok(chain') => CheckSteps(steps, i + 1, prior', chain')
  }

  /** The reference loop of `multi_step`, inserting into the set of consumed step outputs. */
  method ConsumePriorRefs(steps: seq<Step>, i: nat, refs: seq<StepOutput>, consumed: set<StepOutput>)
    returns (r: Result<set<StepOutput>, ProposalError>)
    requires i <= |steps|
    ensures r == CheckPriorRefs(steps, i, refs, consumed)
  {
    var acc := consumed;
    var j := 0;
    while j < |refs|
      invariant 0 <= j <= |refs|
      invariant CheckPriorRefs(steps, i, refs, consumed) == CheckPriorRefs(steps, i, refs[j..], acc)
    {
      if refs[j].stepIndex >= i || !InBounds(steps[refs[j].stepIndex], refs[j].outputIndex) {
        return Err(ReferenceError(refs[j]));
      }
      if refs[j] in acc {
        return Err(StepDoubleSpend(refs[j]));
      }
      acc := acc + {refs[j]};
      j := j + 1;
    }
    return Ok(acc);
  }

  /** The input loops of `multi_step`, inserting into the set of consumed outputs on the chain. */
  method ConsumeChainRefs(refs: seq<OutputRef>, consumed: set<OutputRef>)
    returns (r: Result<set<OutputRef>, ProposalError>)
    ensures r == CheckChainRefs(refs, consumed)
  {
    var acc := consumed;
    var k := 0;
    while k < |refs|
      invariant 0 <= k <= |refs|
      invariant CheckChainRefs(refs, consumed) == CheckChainRefs(refs[k..], acc)
    {
      if refs[k] in acc {
        return Err(ChainDoubleSpend(refs[k]));
      }
      acc := acc + {refs[k]};
      k := k + 1;
    }
    return Ok(acc);
  }

  /** `Proposal::multi_step`: the first fault across all steps, if any. */
  method MultiStep(steps: seq<Step>) returns (fault: Option<ProposalError>)
    ensures fault == CheckSteps(steps, 0, {}, {})
  {
    var consumedPrior: set<StepOutput> := {};
    var consumedChain: set<OutputRef> := {};
    var i := 0;
    while i < |steps|
      invariant 0 <= i <= |steps|
      invariant CheckSteps(steps, 0, {}, {}) == CheckSteps(steps, i, consumedPrior, consumedChain)
    {
      var prior := ConsumePriorRefs(steps, i, steps[i].priorStepInputs, consumedPrior);
      if prior.Err? {
        return Some(prior.error);
      }
      var chain := ConsumeChainRefs(ChainRefs(steps[i]), consumedChain);
      if chain.Err? {
        return Some(chain.error);
      }
      consumedPrior, consumedChain := prior.value, chain.value;
      i := i + 1;
    }
    return None;
  }

  function AllPriorRefs(steps: seq<Step>): seq<StepOutput> {
    if steps == [] then [] else AllPriorRefs(steps[..|steps| - 1]) + steps[|steps| - 1].priorStepInputs
  }

  function AllChainRefs(steps: seq<Step>): seq<OutputRef> {
    if steps == [] then [] else AllChainRefs(steps[..|steps| - 1]) + ChainRefs(steps[|steps| - 1])
  }

  /** Every reference points to an earlier step and passes its bounds check. */
  predicate RefsPointBack(steps: seq<Step>, i: nat)
    requires i < |steps|
  {
    forall j :: 0 <= j < |steps[i].priorStepInputs| ==>
      var r := steps[i].priorStepInputs[j];
      r.stepIndex < i && InBounds(steps[r.stepIndex], r.outputIndex)
  }

  lemma {:induction false} CheckPriorRefsMeaning(steps: seq<Step>, i: nat, refs: seq<StepOutput>, seen: seq<StepOutput>)
    requires i <= |steps| && NoDuplicates(seen)
    ensures CheckPriorRefs(steps, i, refs, Elements(seen)).Ok? <==>
            && (forall j :: 0 <= j < |refs| ==>
                refs[j].stepIndex < i && InBounds(steps[refs[j].stepIndex], refs[j].outputIndex))
            && NoDuplicates(seen + refs)
    ensures CheckPriorRefs(steps, i, refs, Elements(seen)).Ok? ==>
              CheckPriorRefs(steps, i, refs, Elements(seen)).value == Elements(seen + refs)
    decreases refs
  {
    if refs == [] {
      assert seen + refs == seen;
    } else {
      var r := refs[0];
      assert seen + refs == seen + [r] + refs[1..];
      assert Elements(seen + [r]) == Elements(seen) + {r};
      if r in seen {
        var k :| 0 <= k < |seen| && seen[k] == r;
        assert (seen + refs)[k] == (seen + refs)[|seen|];
      } else {
        CheckPriorRefsMeaning(steps, i, refs[1..], seen + [r]);
        assert forall j :: 0 < j < |refs| ==> refs[j] == refs[1..][j - 1];
      }
    }
  }

  lemma {:induction false} CheckChainRefsMeaning(refs: seq<OutputRef>, seen: seq<OutputRef>)
    requires NoDuplicates(seen)
    ensures CheckChainRefs(refs, Elements(seen)).Ok? <==> NoDuplicates(seen + refs)
    ensures CheckChainRefs(refs, Elements(seen)).Ok? ==>
            CheckChainRefs(refs, Elements(seen)).value == Elements(seen + refs)
    decreases refs
  {
    if refs == [] {
      assert seen + refs == seen;
    } else {
      var r := refs[0];
      assert seen + refs == seen + [r] + refs[1..];
      assert Elements(seen + [r]) == Elements(seen) + {r};
      if r in seen {
        var k :| 0 <= k < |seen| && seen[k] == r;
        assert (seen + refs)[k] == (seen + refs)[|seen|];
      } else {
        CheckChainRefsMeaning(refs[1..], seen + [r]);
      }
    }
  }

  lemma {:induction false} AllPriorRefsPrefix(steps: seq<Step>, n: nat)
    requires n <= |steps|
    ensures AllPriorRefs(steps[..n]) <= AllPriorRefs(steps)
    ensures AllChainRefs(steps[..n]) <= AllChainRefs(steps)
  {
    if n == |steps| {
      assert steps[..n] == steps;
    } else {
      assert steps[..|steps| - 1][..n] == steps[..n];
      AllPriorRefsPrefix(steps[..|steps| - 1], n);
    }
  }

  lemma PrefixDistinct<T>(xs: seq<T>, ys: seq<T>)
    requires xs <= ys && NoDuplicates(ys)
    ensures NoDuplicates(xs)
  {
  }

  predicate RefsPointBackFrom(steps: seq<Step>, i: nat)
    requires i <= |steps|
    decreases |steps| - i
  {
    i == |steps| || (RefsPointBack(steps, i) && RefsPointBackFrom(steps, i + 1))
  }

  lemma {:induction false} CheckStepsMeaning(steps: seq<Step>, i: nat)
    requires i <= |steps|
    requires NoDuplicates(AllPriorRefs(steps[..i])) && NoDuplicates(AllChainRefs(steps[..i]))
    ensures CheckSteps(steps, i, Elements(AllPriorRefs(steps[..i])), Elements(AllChainRefs(steps[..i]))).None? <==>
            RefsPointBackFrom(steps, i) && NoDuplicates(AllPriorRefs(steps)) && NoDuplicates(AllChainRefs(steps))
    decreases |steps| - i
  {
    if i == |steps| {
      assert steps[..i] == steps;
    } else {
      var prior, chain := AllPriorRefs(steps[..i]), AllChainRefs(steps[..i]);
      var prior', chain' := AllPriorRefs(steps[..i + 1]), AllChainRefs(steps[..i + 1]);
      assert prior' == prior + steps[i].priorStepInputs && chain' == chain + ChainRefs(steps[i]) by {
        assert steps[..i + 1][..i] == steps[..i];
      }
      var checked := CheckPriorRefs(steps, i, steps[i].priorStepInputs, Elements(prior));
      assert checked.Ok? <==> RefsPointBack(steps, i) && NoDuplicates(prior') by {
        CheckPriorRefsMeaning(steps, i, steps[i].priorStepInputs, prior);
      }
      assert checked.Ok? ==> checked.value == Elements(prior') by {
        CheckPriorRefsMeaning(steps, i, steps[i].priorStepInputs, prior);
      }
      CheckChainRefsMeaning(ChainRefs(steps[i]), chain);
      AllPriorRefsPrefix(steps, i + 1);
      if NoDuplicates(AllPriorRefs(steps)) {
        PrefixDistinct(prior', AllPriorRefs(steps));
      }
      if NoDuplicates(AllChainRefs(steps)) {
        PrefixDistinct(chain', AllChainRefs(steps));
      }
      if NoDuplicates(prior') && NoDuplicates(chain') {
        CheckStepsMeaning(steps, i + 1);
      }
    }
  }

  lemma {:induction false} PointBackFrom(steps: seq<Step>, i: nat)
    requires i <= |steps|
    ensures RefsPointBackFrom(steps, i) <==> forall k :: i <= k < |steps| ==> RefsPointBack(steps, k)
    decreases |steps| - i
  {
    if i < |steps| {
      PointBackFrom(steps, i + 1);
    }
  }

  /** A proposal passes exactly when every reference points back in bounds, no step output is
      consumed twice, and no output on the chain is spent twice, within or across steps. */
  lemma MultiStepAcceptsIff(steps: seq<Step>)
    ensures CheckSteps(steps, 0, {}, {}).None? <==>
            && (forall k :: 0 <= k < |steps| ==> RefsPointBack(steps, k))
            && NoDuplicates(AllPriorRefs(steps)) && NoDuplicates(AllChainRefs(steps))
  {
    assert steps[..0] == [];
    assert Elements(AllPriorRefs(steps[..0])) == {} && Elements(AllChainRefs(steps[..0])) == {};
    CheckStepsMeaning(steps, 0);
    PointBackFrom(steps, 0);
  }

  // ---------- The same on the fields of the steps ----------

  /** Every reference points to an earlier step, to a payment below their number or to an existing change
      output. */
  ghost predicate RefsInBounds(steps: seq<Step>) {
    forall i, a :: 0 <= i < |steps| && 0 <= a < |steps[i].priorStepInputs| ==>
      var r := steps[i].priorStepInputs[a];
      && r.stepIndex < i
      && match r.outputIndex {
           case PaymentIndex(k) => k < |steps[r.stepIndex].request|
           case ChangeIndex(k) => k < |steps[r.stepIndex].balance.proposedChange|
         }
  }

  /** References at two different places differ. */
  ghost predicate OutputsUsedOnce(steps: seq<Step>) {
    forall i, a, j, b ::
      && 0 <= i < |steps| && 0 <= a < |steps[i].priorStepInputs|
      && 0 <= j < |steps| && 0 <= b < |steps[j].priorStepInputs| && (i, a) != (j, b) ==>
        steps[i].priorStepInputs[a] != steps[j].priorStepInputs[b]
  }

  /** Transparent inputs at two different places differ in transaction or index. */
  ghost predicate UtxosSpentOnce(steps: seq<Step>) {
    forall i, a, j, b ::
      && 0 <= i < |steps| && 0 <= a < |steps[i].transparentInputs|
      && 0 <= j < |steps| && 0 <= b < |steps[j].transparentInputs| && (i, a) != (j, b) ==>
        var u, v := steps[i].transparentInputs[a], steps[j].transparentInputs[b];
        u.txid != v.txid || u.index != v.index
  }

  /** Notes at two different places differ in transaction, pool or index. */
  ghost predicate NotesSpentOnce(steps: seq<Step>) {
    forall i, a, j, b ::
      && 0 <= i < |steps| && 0 <= a < |steps[i].shieldedInputs|
      && 0 <= j < |steps| && 0 <= b < |steps[j].shieldedInputs| && (i, a) != (j, b) ==>
        var m, n := steps[i].shieldedInputs[a], steps[j].shieldedInputs[b];
        m.txid != n.txid || m.pool != n.pool || m.index != n.index
  }

  function PriorRefs(s: Step): seq<StepOutput> {
    s.priorStepInputs
  }

  lemma {:induction false} RefsAreFlattened(steps: seq<Step>)
    ensures AllPriorRefs(steps) == FlatMap(PriorRefs, steps)
    ensures AllChainRefs(steps) == FlatMap(ChainRefs, steps)
  {
    if steps != [] {
      hide ChainRefs;
      RefsAreFlattened(steps[..|steps| - 1]);
    }
  }

  lemma ChainRefAt(s: Step, a: nat)
    ensures |ChainRefs(s)| == |s.transparentInputs| + |s.shieldedInputs|
    ensures a < |s.transparentInputs| ==> ChainRefs(s)[a] == UtxoRef(s.transparentInputs[a])
    ensures a < |s.shieldedInputs| ==> ChainRefs(s)[|s.transparentInputs| + a] == NoteRef(s.shieldedInputs[a])
  {
  }

  lemma ChainPlacesDifferIff(steps: seq<Step>)
    ensures PlacesDiffer(ChainRefs, steps) <==> UtxosSpentOnce(steps) && NotesSpentOnce(steps)
  {
    if PlacesDiffer(ChainRefs, steps) {
      UtxosDiffer(steps);
      NotesDiffer(steps);
    }
    if UtxosSpentOnce(steps) && NotesSpentOnce(steps) {
      forall i, a, j, b | 0 <= i < |steps| && 0 <= a < |ChainRefs(steps[i])| && 0 <= j < |steps|
                          && 0 <= b < |ChainRefs(steps[j])| && (i, a) != (j, b)
        ensures ChainRefs(steps[i])[a] != ChainRefs(steps[j])[b]
      {
        ChainRefsDiffer(steps, i, a, j, b);
      }
    }
  }

  lemma UtxosDiffer(steps: seq<Step>)
    requires PlacesDiffer(ChainRefs, steps)
    ensures UtxosSpentOnce(steps)
  {
    hide ChainRefs;
    forall i, a, j, b | 0 <= i < |steps| && 0 <= a < |steps[i].transparentInputs| && 0 <= j < |steps|
                        && 0 <= b < |steps[j].transparentInputs| && (i, a) != (j, b)
      ensures UtxoRef(steps[i].transparentInputs[a]) != UtxoRef(steps[j].transparentInputs[b])
    {
      ChainRefAt(steps[i], a);
      ChainRefAt(steps[j], b);
    }
  }

  lemma NotesDiffer(steps: seq<Step>)
    requires PlacesDiffer(ChainRefs, steps)
    ensures NotesSpentOnce(steps)
  {
    hide ChainRefs;
    forall i, a, j, b | 0 <= i < |steps| && 0 <= a < |steps[i].shieldedInputs| && 0 <= j < |steps|
                        && 0 <= b < |steps[j].shieldedInputs| && (i, a) != (j, b)
      ensures NoteRef(steps[i].shieldedInputs[a]) != NoteRef(steps[j].shieldedInputs[b])
    {
      ChainRefAt(steps[i], a);
      ChainRefAt(steps[j], b);
      var k, l := |steps[i].transparentInputs| + a, |steps[j].transparentInputs| + b;
      assert ChainRefs(steps[i])[k] != ChainRefs(steps[j])[l];
    }
  }

  lemma ChainRefsDiffer(steps: seq<Step>, i: nat, a: nat, j: nat, b: nat)
    requires UtxosSpentOnce(steps) && NotesSpentOnce(steps)
    requires i < |steps| && a < |ChainRefs(steps[i])| && j < |steps| && b < |ChainRefs(steps[j])| && (i, a) != (j, b)
    ensures ChainRefs(steps[i])[a] != ChainRefs(steps[j])[b]
  {
    hide ChainRefs;
    var m, n := |steps[i].transparentInputs|, |steps[j].transparentInputs|;
    ChainRefAt(steps[i], if a < m then a else a - m);
    ChainRefAt(steps[j], if b < n then b else b - n);
  }

  /** A proposal passes exactly when every reference points back in bounds, and no step output, no
      transparent output and no note is used at two places, within or across steps. */
  lemma ProposalPassesIff(steps: seq<Step>)
    ensures CheckSteps(steps, 0, {}, {}).None? <==>
            RefsInBounds(steps) && OutputsUsedOnce(steps) && UtxosSpentOnce(steps) && NotesSpentOnce(steps)
  {
    hide CheckSteps, ChainRefs, UtxosSpentOnce, NotesSpentOnce, FlatMap, PlacesDiffer, OutputsUsedOnce, NoDuplicates;
    hide RefsInBounds, RefsPointBack, AllPriorRefs, AllChainRefs;
    MultiStepAcceptsIff(steps);
    RefsAreFlattened(steps);
    FlatMapDistinctIff(PriorRefs, steps);
    FlatMapDistinctIff(ChainRefs, steps);
    ChainPlacesDifferIff(steps);
    RefsInBoundsIff(steps);
    PriorPlacesDifferIff(steps);
  }

  lemma PriorPlacesDifferIff(steps: seq<Step>)
    ensures PlacesDiffer(PriorRefs, steps) <==> OutputsUsedOnce(steps)
  {
  }

  lemma RefsInBoundsIff(steps: seq<Step>)
    ensures RefsInBounds(steps) <==> forall k :: 0 <= k < |steps| ==> RefsPointBack(steps, k)
  {
    if RefsInBounds(steps) {
      forall k | 0 <= k < |steps| ensures RefsPointBack(steps, k) {
      }
    }
    if forall k :: 0 <= k < |steps| ==> RefsPointBack(steps, k) {
      forall i, a | 0 <= i < |steps| && 0 <= a < |steps[i].priorStepInputs|
        ensures var r := steps[i].priorStepInputs[a]; r.stepIndex < i && InBounds(steps[r.stepIndex], r.outputIndex)
      {
        assert RefsPointBack(steps, i);
      }
    }
  }

  // ---------- Why a proposal is refused ----------

  lemma {:induction false} CheckPriorRefsReason(steps: seq<Step>, i: nat, refs: seq<StepOutput>, seen: seq<StepOutput>)
    requires i <= |steps|
    requires CheckPriorRefs(steps, i, refs, Elements(seen)).Err?
    ensures
      var e := CheckPriorRefs(steps, i, refs, Elements(seen)).error;
      || (&& e.ReferenceError? && e.reference in refs
          && (e.reference.stepIndex >= i || !InBounds(steps[e.reference.stepIndex], e.reference.outputIndex)))
      || (e.StepDoubleSpend? && e.reference in refs && multiset(seen + refs)[e.reference] >= 2)
    decreases refs
  {
    var r := refs[0];
    assert r in refs;
    if r in seen {
      assert multiset(seen + refs) == multiset(seen) + multiset(refs);
    } else if r.stepIndex < i && InBounds(steps[r.stepIndex], r.outputIndex) {
      assert Elements(seen + [r]) == Elements(seen) + {r};
      assert seen + refs == seen + [r] + refs[1..];
      CheckPriorRefsReason(steps, i, refs[1..], seen + [r]);
    }
  }

  lemma {:induction false} CheckChainRefsReason(refs: seq<OutputRef>, seen: seq<OutputRef>)
    requires CheckChainRefs(refs, Elements(seen)).Err?
    ensures
      var e := CheckChainRefs(refs, Elements(seen)).error;
      e.ChainDoubleSpend? && multiset(seen + refs)[e.output] >= 2
    decreases refs
  {
    var r := refs[0];
    assert r in refs;
    if r in seen {
      assert multiset(seen + refs) == multiset(seen) + multiset(refs);
    } else {
      assert Elements(seen + [r]) == Elements(seen) + {r};
      assert seen + refs == seen + [r] + refs[1..];
      CheckChainRefsReason(refs[1..], seen + [r]);
    }
  }

  lemma {:induction false} CheckPriorRefsCollects(steps: seq<Step>, i: nat, refs: seq<StepOutput>,
                                                  seen: seq<StepOutput>)
    requires i <= |steps|
    requires CheckPriorRefs(steps, i, refs, Elements(seen)).Ok?
    ensures CheckPriorRefs(steps, i, refs, Elements(seen)).value == Elements(seen + refs)
    decreases refs
  {
    if refs == [] {
      assert seen + refs == seen;
    } else {
      assert Elements(seen + [refs[0]]) == Elements(seen) + {refs[0]};
      assert seen + refs == seen + [refs[0]] + refs[1..];
      CheckPriorRefsCollects(steps, i, refs[1..], seen + [refs[0]]);
    }
  }

  lemma {:induction false} CheckChainRefsCollects(refs: seq<OutputRef>, seen: seq<OutputRef>)
    requires CheckChainRefs(refs, Elements(seen)).Ok?
    ensures CheckChainRefs(refs, Elements(seen)).value == Elements(seen + refs)
    decreases refs
  {
    if refs == [] {
      assert seen + refs == seen;
    } else {
      assert Elements(seen + [refs[0]]) == Elements(seen) + {refs[0]};
      assert seen + refs == seen + [refs[0]] + refs[1..];
      CheckChainRefsCollects(refs[1..], seen + [refs[0]]);
    }
  }

  /** What a refusal says is so: a reference of some step points forward or out of bounds, or is used twice,
      or an output on the chain is spent twice. */
  ghost predicate FaultIsTrue(steps: seq<Step>, e: ProposalError) {
    match e
    case ReferenceError(r) =>
      exists i :: 0 <= i < |steps| && r in steps[i].priorStepInputs
                  && (r.stepIndex >= i || !InBounds(steps[r.stepIndex], r.outputIndex))
    case StepDoubleSpend(r) => multiset(AllPriorRefs(steps))[r] >= 2
    case ChainDoubleSpend(o) => multiset(AllChainRefs(steps))[o] >= 2
    case _ => false
  }

  lemma PrefixCounts<T>(xs: seq<T>, ys: seq<T>, x: T)
    requires xs <= ys
    ensures multiset(xs)[x] <= multiset(ys)[x]
  {
    assert ys == xs + ys[|xs|..];
  }

  lemma NextRefs(steps: seq<Step>, i: nat)
    requires i < |steps|
    ensures AllPriorRefs(steps[..i + 1]) == AllPriorRefs(steps[..i]) + steps[i].priorStepInputs <= AllPriorRefs(steps)
    ensures AllChainRefs(steps[..i + 1]) == AllChainRefs(steps[..i]) + ChainRefs(steps[i]) <= AllChainRefs(steps)
  {
    assert steps[..i + 1][..i] == steps[..i];
    AllPriorRefsPrefix(steps, i + 1);
  }

  lemma PriorFaultIsTrue(steps: seq<Step>, i: nat)
    requires i < |steps|
    requires CheckPriorRefs(steps, i, steps[i].priorStepInputs, Elements(AllPriorRefs(steps[..i]))).Err?
    ensures FaultIsTrue(steps,
              CheckPriorRefs(steps, i, steps[i].priorStepInputs, Elements(AllPriorRefs(steps[..i]))).error)
  {
    hide InBounds, CheckPriorRefs, AllPriorRefs;
    var prior := AllPriorRefs(steps[..i]);
    CheckPriorRefsReason(steps, i, steps[i].priorStepInputs, prior);
    NextRefs(steps, i);
    var e := CheckPriorRefs(steps, i, steps[i].priorStepInputs, Elements(prior)).error;
    PrefixCounts(prior + steps[i].priorStepInputs, AllPriorRefs(steps), e.reference);
  }

  lemma ChainFaultIsTrue(steps: seq<Step>, i: nat)
    requires i < |steps|
    requires CheckChainRefs(ChainRefs(steps[i]), Elements(AllChainRefs(steps[..i]))).Err?
    ensures FaultIsTrue(steps, CheckChainRefs(ChainRefs(steps[i]), Elements(AllChainRefs(steps[..i]))).error)
  {
    hide ChainRefs, CheckChainRefs, AllChainRefs;
    var chain := AllChainRefs(steps[..i]);
    CheckChainRefsReason(ChainRefs(steps[i]), chain);
    NextRefs(steps, i);
    var e := CheckChainRefs(ChainRefs(steps[i]), Elements(chain)).error;
    PrefixCounts(chain + ChainRefs(steps[i]), AllChainRefs(steps), e.output);
  }

  lemma {:induction false} CheckStepsReason(steps: seq<Step>, i: nat)
    requires i <= |steps|
    requires CheckSteps(steps, i, Elements(AllPriorRefs(steps[..i])), Elements(AllChainRefs(steps[..i]))).Some?
    ensures FaultIsTrue(steps,
              CheckSteps(steps, i, Elements(AllPriorRefs(steps[..i])), Elements(AllChainRefs(steps[..i]))).value)
    decreases |steps| - i
  {
    hide FaultIsTrue, ChainRefs, CheckPriorRefs, CheckChainRefs, Elements, AllPriorRefs, AllChainRefs;
    var prior, chain := AllPriorRefs(steps[..i]), AllChainRefs(steps[..i]);
    NextRefs(steps, i);
    if CheckPriorRefs(steps, i, steps[i].priorStepInputs, Elements(prior)).Err? {
      PriorFaultIsTrue(steps, i);
    } else {
      CheckPriorRefsCollects(steps, i, steps[i].priorStepInputs, prior);
      if CheckChainRefs(ChainRefs(steps[i]), Elements(chain)).Err? {
        ChainFaultIsTrue(steps, i);
      } else {
        CheckChainRefsCollects(ChainRefs(steps[i]), chain);
        CheckStepsReason(steps, i + 1);
      }
    }
  }

  lemma ProposalRefusalsAreTruthful(steps: seq<Step>)
    requires CheckSteps(steps, 0, {}, {}).Some?
    ensures FaultIsTrue(steps, CheckSteps(steps, 0, {}, {}).value)
  {
    assert steps[..0] == [];
    assert Elements(AllPriorRefs(steps[..0])) == {} && Elements(AllChainRefs(steps[..0])) == {};
    CheckStepsReason(steps, 0);
  }

  // ---------- Conservation ----------

  /** A proposal as the decode loop builds it: each step against those before it, then the whole. */
  predicate Valid(ironwoodActive: bool, steps: seq<Step>) {
    && steps != []
    && WellBuilt(ironwoodActive, steps)
    && CheckSteps(steps, 0, {}, {}).None?
  }

  function PaymentRefs(i: nat, keys: seq<nat>): seq<StepOutput> {
    seq(|keys|, k requires 0 <= k < |keys| => StepOutput(i, PaymentIndex(keys[k])))
  }

  function ChangeRefs(i: nat, n: nat): seq<StepOutput> {
    seq(n, k requires 0 <= k < n => StepOutput(i, ChangeIndex(k)))
  }

  /** The outputs that step `i` creates. */
  function OutputsOf(i: nat, s: Step): seq<StepOutput> {
    PaymentRefs(i, Ascending(s.request.Keys)) + ChangeRefs(i, |s.balance.proposedChange|)
  }

  function AllOutputs(steps: seq<Step>): seq<StepOutput> {
    if steps == [] then []
    else AllOutputs(steps[..|steps| - 1]) + OutputsOf(|steps| - 1, steps[|steps| - 1])
  }

  /** The outputs no step of the proposal consumes: what the proposal pays and returns for good. */
  ghost function FinalOutputs(steps: seq<Step>): set<StepOutput> {
    Elements(AllOutputs(steps)) - Elements(AllPriorRefs(steps))
  }

  lemma OutputsOfDistinct(i: nat, s: Step)
    ensures NoDuplicates(OutputsOf(i, s))
    ensures forall r :: r in OutputsOf(i, s) ==> r.stepIndex == i
  {
    hide Ascending;
    var keys, change := Ascending(s.request.Keys), |s.balance.proposedChange|;
    var outputs := OutputsOf(i, s);
    forall a | 0 <= a < |outputs|
      ensures outputs[a] == StepOutput(i, if a < |keys| then PaymentIndex(keys[a]) else ChangeIndex(a - |keys|))
    {
      assert a < |keys| ==> outputs[a] == PaymentRefs(i, keys)[a];
      assert a >= |keys| ==> outputs[a] == ChangeRefs(i, change)[a - |keys|];
    }
    forall a, b | 0 <= a < b < |outputs| ensures outputs[a] != outputs[b] {
      assert b < |keys| ==> keys[a] < keys[b];
    }
  }

  lemma {:induction false} AllOutputsDistinct(steps: seq<Step>)
    ensures NoDuplicates(AllOutputs(steps))
    ensures forall r :: r in AllOutputs(steps) ==> r.stepIndex < |steps|
  {
    if steps != [] {
      var n := |steps| - 1;
      AllOutputsDistinct(steps[..n]);
      OutputsOfDistinct(n, steps[n]);
      var front, last := AllOutputs(steps[..n]), OutputsOf(n, steps[n]);
      forall a, b | 0 <= a < b < |front + last| ensures (front + last)[a] != (front + last)[b] {
        if a < |front| <= b {
          assert front[a] in front && last[b - |front|] in last;
        }
      }
    }
  }

  lemma {:induction false} DenotedIsOutput(steps: seq<Step>, r: StepOutput)
    requires Denotes(steps, r)
    ensures r in AllOutputs(steps)
  {
    hide Ascending;
    var n := |steps| - 1;
    var outputs := OutputsOf(n, steps[n]);
    if r.stepIndex == n {
      match r.outputIndex {
        case PaymentIndex(k) =>
          var keys := Ascending(steps[n].request.Keys);
          var j :| 0 <= j < |keys| && keys[j] == k;
          assert outputs[j] == r;
        case ChangeIndex(k) =>
          assert outputs[|steps[n].request| + k] == r;
      }
    } else {
      assert steps[..n][r.stepIndex] == steps[r.stepIndex];
      DenotedIsOutput(steps[..n], r);
    }
  }

  lemma PaymentRefsTotal(steps: seq<Step>, i: nat, keys: seq<nat>)
    requires i < |steps|
    ensures SumOf(ValueIn(steps), PaymentRefs(i, keys)) == SumOf(RequestAmount(steps[i].request), keys)
  {
    SumOfCongruent(ValueIn(steps), RequestAmount(steps[i].request), PaymentRefs(i, keys), keys);
  }

  lemma ChangeRefsTotal(steps: seq<Step>, i: nat)
    requires i < |steps|
    ensures SumOf(ValueIn(steps), ChangeRefs(i, |steps[i].balance.proposedChange|)) == ChangeTotal(steps[i])
  {
    var change := steps[i].balance.proposedChange;
    SumOfCongruent(ValueIn(steps), ChangeAmount, ChangeRefs(i, |change|), change);
  }

  /** The values of a step's outputs add up to its payments and change. */
  lemma OutputsOfTotal(steps: seq<Step>, i: nat)
    requires i < |steps|
    ensures SumOf(ValueIn(steps), OutputsOf(i, steps[i])) == PaymentTotal(steps[i]) + ChangeTotal(steps[i])
  {
    hide Ascending;
    var keys := Ascending(steps[i].request.Keys);
    SumOfConcat(ValueIn(steps), PaymentRefs(i, keys), ChangeRefs(i, |steps[i].balance.proposedChange|));
    PaymentRefsTotal(steps, i, keys);
    ChangeRefsTotal(steps, i);
  }

  lemma {:induction false} AllOutputsTotal(steps: seq<Step>, n: nat)
    requires n <= |steps|
    ensures SumOf(ValueIn(steps), AllOutputs(steps[..n])) ==
            SumOf(PaymentTotal, steps[..n]) + SumOf(ChangeTotal, steps[..n])
  {
    if n > 0 {
      assert steps[..n][..n - 1] == steps[..n - 1];
      AllOutputsTotal(steps, n - 1);
      SumOfConcat(ValueIn(steps), AllOutputs(steps[..n - 1]), OutputsOf(n - 1, steps[n - 1]));
      OutputsOfTotal(steps, n - 1);
    }
  }

  lemma PriorTotalInWhole(steps: seq<Step>, i: nat, refs: seq<StepOutput>)
    requires i <= |steps|
    requires forall j :: 0 <= j < |refs| ==> Denotes(steps[..i], refs[j])
    ensures PriorTotal(steps[..i], refs) == SumOf(ValueIn(steps), refs)
  {
    SumOfCongruent(ValueIn(steps[..i]), ValueIn(steps), refs, refs);
  }

  lemma DenotesInWhole(steps: seq<Step>, i: nat, r: StepOutput)
    requires i <= |steps| && Denotes(steps[..i], r)
    ensures Denotes(steps, r)
  {
  }

  /** Adding up the balances of a run. */
  lemma {:induction false} RunBalances(ironwoodActive: bool, steps: seq<Step>)
    requires RunSound(ironwoodActive, steps)
    ensures SumOf(ChainTotal, steps) + SumOf(ValueIn(steps), AllPriorRefs(steps)) ==
            SumOf(PaymentTotal, steps) + SumOf(ChangeTotal, steps) + SumOf(Fee, steps)
    ensures forall r :: r in AllPriorRefs(steps) ==> Denotes(steps, r)
  {
    if steps != [] {
      var n := |steps| - 1;
      var front, s := steps[..n], steps[n];
      RunBalances(ironwoodActive, front);
      forall r | r in AllPriorRefs(steps) ensures Denotes(front, r) && Denotes(steps, r) {
        if r in s.priorStepInputs {
          assert Denotes(front, r);
        }
        DenotesInWhole(steps, n, r);
      }
      PriorTotalInWhole(steps, n, AllPriorRefs(front));
      PriorTotalInWhole(steps, n, s.priorStepInputs);
      SumOfConcat(ValueIn(steps), AllPriorRefs(front), s.priorStepInputs);
    }
  }

  /** Over every valid proposal, what comes from the chain is exactly what goes to fees and to
      outputs that no later step consumes. */
  lemma ProposalConservesValue(ironwoodActive: bool, steps: seq<Step>)
    requires Valid(ironwoodActive, steps)
    ensures SumOf(ChainTotal, steps) == SumOf(Fee, steps) + SumSet(ValueIn(steps), FinalOutputs(steps))
  {
    WellBuiltIsSound(ironwoodActive, steps);
    RunBalances(ironwoodActive, steps);
    assert steps[..|steps|] == steps;
    AllOutputsTotal(steps, |steps|);
    MultiStepAcceptsIff(steps);
    AllOutputsDistinct(steps);
    SumOfDistinct(ValueIn(steps), AllOutputs(steps));
    SumOfDistinct(ValueIn(steps), AllPriorRefs(steps));
    forall r | r in AllPriorRefs(steps) ensures r in AllOutputs(steps) {
      DenotedIsOutput(steps, r);
    }
    SumSetSplit(ValueIn(steps), Elements(AllOutputs(steps)), Elements(AllPriorRefs(steps)));
  }

  /** References point strictly back to outputs with a value, and nothing is used twice. */
  lemma ProposalSpendsOnce(ironwoodActive: bool, steps: seq<Step>)
    requires Valid(ironwoodActive, steps)
    ensures forall i :: 0 <= i < |steps| ==> RefsPointBack(steps, i)
    ensures forall r :: r in AllPriorRefs(steps) ==> Denotes(steps, r)
    ensures NoDuplicates(AllPriorRefs(steps))
    ensures NoDuplicates(AllChainRefs(steps))
    ensures RefsInBounds(steps) && OutputsUsedOnce(steps) && UtxosSpentOnce(steps) && NotesSpentOnce(steps)
  {
    hide RefsInBounds, OutputsUsedOnce, UtxosSpentOnce, NotesSpentOnce;
    ProposalPassesIff(steps);
    MultiStepAcceptsIff(steps);
    WellBuiltIsSound(ironwoodActive, steps);
    RunBalances(ironwoodActive, steps);
  }

  // ---------- Counting payments where steps look them up ----------

  lemma {:induction false} SoundAt(ironwoodActive: bool, steps: seq<Step>, i: nat)
    requires RunSound(ironwoodActive, steps) && i < |steps|
    ensures RefsDenote(steps[..i], steps[i])
  {
    hide RefsDenote, Balanced, RespectsTurnstile;
    var n := |steps| - 1;
    if i < n {
      SoundAt(ironwoodActive, steps[..n], i);
      assert steps[..n][..i] == steps[..i];
    }
  }

  /** Step `i` references payments only by indices below their number. */
  predicate RefsCounted(steps: seq<Step>, i: nat)
    requires i < |steps|
  {
    forall j :: 0 <= j < |steps[i].priorStepInputs| && steps[i].priorStepInputs[j].outputIndex.PaymentIndex? ==>
      var r := steps[i].priorStepInputs[j];
      r.stepIndex < |steps| && r.outputIndex.index < |steps[r.stepIndex].request|
  }

  lemma DenotingPointsBackIff(steps: seq<Step>, i: nat)
    requires i < |steps| && RefsDenote(steps[..i], steps[i])
    ensures RefsPointBack(steps, i) <==> RefsCounted(steps, i)
  {
    forall j | 0 <= j < |steps[i].priorStepInputs|
      ensures steps[i].priorStepInputs[j].stepIndex < i
    {
      assert Denotes(steps[..i], steps[i].priorStepInputs[j]);
    }
    if RefsCounted(steps, i) {
      forall j | 0 <= j < |steps[i].priorStepInputs|
        ensures var r := steps[i].priorStepInputs[j]; InBounds(steps[r.stepIndex], r.outputIndex)
      {
        var r := steps[i].priorStepInputs[j];
        assert Denotes(steps[..i], r);
        assert steps[..i][r.stepIndex] == steps[r.stepIndex];
      }
    }
  }

  /** What the whole-proposal pass asks of steps that were each accepted: that nothing is used twice, and,
      what no step was asked, that payments are referenced by indices below their number. */
  lemma AcceptedStepsPassIff(ironwoodActive: bool, steps: seq<Step>)
    requires WellBuilt(ironwoodActive, steps)
    ensures CheckSteps(steps, 0, {}, {}).None? <==>
            && NoDuplicates(AllPriorRefs(steps)) && NoDuplicates(AllChainRefs(steps))
            && (forall i :: 0 <= i < |steps| ==> RefsCounted(steps, i))
  {
    hide CheckSteps, RefsCounted, RefsPointBack, RefsDenote;
    WellBuiltIsSound(ironwoodActive, steps);
    MultiStepAcceptsIff(steps);
    forall i | 0 <= i < |steps| ensures RefsPointBack(steps, i) <==> RefsCounted(steps, i) {
      SoundAt(ironwoodActive, steps, i);
      DenotingPointsBackIff(steps, i);
    }
  }

  /** A step that pays one zatoshi, as payment number one and the only one. */
  function GappedStep(): Step {
    Step(map[1 := Payment({Transparent}, Some(1), [])], map[1 := Transparent],
         [Utxo(seq(32, _ => 0), 0, 1, [])], [], None, [], BalanceParts([], 0, 0, None), false)
  }

  /** A step that spends that payment. */
  function SpendingStep(): Step {
    Step(map[], map[], [], [], None, [StepOutput(0, PaymentIndex(1))],
         BalanceParts([TransparentChange(1)], 0, 1, None), false)
  }

  lemma GappedStepBuilt(ironwoodActive: bool)
    ensures Built(ironwoodActive, [], GappedStep())
  {
    hide Ascending, Built;
    var s := GappedStep();
    assert PaymentTotal(s) == 1 by {
      var keys := Ascending(s.request.Keys);
      assert |s.request.Keys| == 1;
      assert keys[0] in keys;
      assert keys == [1];
    }
    assert ChainTotal(s) == 1 && PriorTotal([], s.priorStepInputs) == 0 && ChangeTotal(s) == 0 && OrchardChange(s) == 0;
    hide SumOf, TurnstileError;
    StepAcceptedIff(ironwoodActive, [], s);
  }

  lemma SpendingStepBuilt(ironwoodActive: bool)
    ensures Built(ironwoodActive, [GappedStep()], SpendingStep())
  {
    hide Ascending;
    var s := SpendingStep();
    StepAcceptedIff(ironwoodActive, [GappedStep()], s);
    assert PriorValue([GappedStep()], s.priorStepInputs[0]) == Ok(1);
    assert PriorTotal([GappedStep()], s.priorStepInputs) == 1;
    assert Ascending(s.request.Keys) == [];
    assert PaymentTotal(s) == 0;
  }

  /** So each step can be accepted and the proposal refused: the spent payment has an index above the
      number of payments. */
  lemma AcceptedStepsRefused(ironwoodActive: bool)
    ensures WellBuilt(ironwoodActive, [GappedStep(), SpendingStep()])
    ensures CheckSteps([GappedStep(), SpendingStep()], 0, {}, {}).Some?
  {
    hide CheckSteps, Built;
    var steps := [GappedStep(), SpendingStep()];
    GappedStepBuilt(ironwoodActive);
    SpendingStepBuilt(ironwoodActive);
    assert steps[..1] == [GappedStep()] && steps[..1][..0] == [];
    assert WellBuilt(ironwoodActive, steps[..1]);
    AcceptedStepsPassIff(ironwoodActive, steps);
    assert !RefsCounted(steps, 1) by {
      assert steps[1].priorStepInputs[0] == StepOutput(0, PaymentIndex(1));
      assert |steps[0].request.Keys| == 1;
    }
  }

  /** A step that spends one output twice. */
  function TwiceSpendingStep(): Step {
    var utxo := Utxo(seq(32, _ => 0), 0, 1, []);
    Step(map[], map[], [utxo, utxo], [], Some(1), [], BalanceParts([TransparentChange(2)], 0, 2, None), false)
  }

  lemma TwiceSpendingStepBuilt(ironwoodActive: bool)
    ensures Built(ironwoodActive, [], TwiceSpendingStep())
  {
    hide Ascending, Built;
    var s := TwiceSpendingStep();
    var inputs := s.transparentInputs;
    assert ChainTotal(s) == 2 by {
      assert inputs[..1] == [inputs[0]] && inputs[..1][..0] == [];
      assert SumOf(UtxoValue, inputs[..1]) == 1;
    }
    assert PaymentTotal(s) == 0 by {
      assert Ascending(s.request.Keys) == [];
    }
    assert PriorTotal([], s.priorStepInputs) == 0 && ChangeTotal(s) == 2 && OrchardChange(s) == 0;
    hide SumOf, TurnstileError;
    StepAcceptedIff(ironwoodActive, [], s);
  }

  /** A step by itself is not checked for that: it is accepted, and refused as a proposal. */
  lemma TwiceSpendingStepAccepted(ironwoodActive: bool)
    ensures Built(ironwoodActive, [], TwiceSpendingStep())
    ensures !NoDuplicates(ChainRefs(TwiceSpendingStep()))
    ensures CheckSteps([TwiceSpendingStep()], 0, {}, {}).Some?
  {
    hide Built, CheckSteps;
    var s := TwiceSpendingStep();
    TwiceSpendingStepBuilt(ironwoodActive);
    assert ChainRefs(s)[0] == ChainRefs(s)[1];
    MultiStepAcceptsIff([s]);
    assert [s][..0] == [] && AllChainRefs([s]) == ChainRefs(s);
  }

  // ---------- The Orchard turnstile ----------

  predicate AllRespectTurnstile(steps: seq<Step>) {
    forall i :: 0 <= i < |steps| ==> RespectsTurnstile(steps[i])
  }

  lemma {:induction false} SoundRunsRespectTurnstile(steps: seq<Step>)
    requires RunSound(true, steps)
    ensures AllRespectTurnstile(steps)
  {
    hide RefsDenote, Balanced, RespectsTurnstile;
    if steps != [] {
      var n := |steps| - 1;
      SoundRunsRespectTurnstile(steps[..n]);
      assert forall i :: 0 <= i < n ==> steps[i] == steps[..n][i];
    }
  }

  /** What returns to the Orchard pool over a whole run is less than what leaves it, unless
      nothing returns. */
  lemma {:induction false} RunDrainsOrchard(steps: seq<Step>)
    requires AllRespectTurnstile(steps)
    ensures SumOf(OrchardChange, steps) <= SumOf(OrchardSpent, steps)
    ensures SumOf(OrchardChange, steps) > 0 ==> SumOf(OrchardChange, steps) < SumOf(OrchardSpent, steps)
  {
    if steps != [] {
      RunDrainsOrchard(steps[..|steps| - 1]);
      assert RespectsTurnstile(steps[|steps| - 1]);
    }
  }

  /** Over every valid proposal made with Ironwood active, no payment enters the Orchard pool, and
      the pool shrinks by more than it is given back. */
  lemma ProposalDrainsOrchard(steps: seq<Step>)
    requires Valid(true, steps)
    ensures forall i :: 0 <= i < |steps| ==> PaysNoOrchard(steps[i])
    ensures SumOf(OrchardChange, steps) <= SumOf(OrchardSpent, steps)
    ensures SumOf(OrchardChange, steps) > 0 ==> SumOf(OrchardChange, steps) < SumOf(OrchardSpent, steps)
  {
    WellBuiltIsSound(true, steps);
    SoundRunsRespectTurnstile(steps);
    RunDrainsOrchard(steps);
  }
}
