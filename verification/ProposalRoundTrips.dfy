/** Decoding undoes encoding, and exactly when it does. */
module ProposalRoundTrips {
  import opened Wrappers
  import opened Sums
  import opened Proposals
  import opened ProposalRuns
  import opened ProposalWire

  function Restrict(pools: map<nat, PoolType>, keys: seq<nat>): map<nat, PoolType>
    requires forall i :: 0 <= i < |keys| ==> keys[i] in pools
  {
    map k | k in keys :: pools[k]
  }

  lemma PoolRoundTrip(pool: PoolType)
    ensures DecodePool(PoolId(pool)) == Ok(pool)
  {
  }

  lemma {:induction false} PoolsRoundTrip(pools: map<nat, PoolType>, keys: seq<nat>)
    requires forall i :: 0 <= i < |keys| ==> keys[i] in pools && Fits(keys[i])
    ensures DecodePools(EncodePools(pools, keys)) == Ok(Restrict(pools, keys))
  {
    if keys == [] {
      assert Restrict(pools, keys) == map[];
    } else {
      var front, last := keys[..|keys| - 1], keys[|keys| - 1];
      PoolsRoundTrip(pools, front);
      var encoded := EncodePools(pools, keys);
      assert encoded[..|encoded| - 1] == EncodePools(pools, front);
      assert encoded[|encoded| - 1] == EncodePool(pools, last);
      PoolRoundTrip(pools[last]);
      assert keys == front + [last];
      assert Restrict(pools, keys) == Restrict(pools, front)[last := pools[last]];
    }
  }

  lemma AllPoolsRoundTrip(pools: map<nat, PoolType>)
    requires forall k :: k in pools ==> Fits(k)
    ensures DecodePools(EncodePools(pools, Ascending(pools.Keys))) == Ok(pools)
  {
    hide DecodePools, EncodePools, Ascending;
    var keys := Ascending(pools.Keys);
    forall i | 0 <= i < |keys| ensures keys[i] in pools && Fits(keys[i]) {
      assert keys[i] in keys;
    }
    PoolsRoundTrip(pools, keys);
    assert Restrict(pools, keys).Keys == pools.Keys;
    assert Restrict(pools, keys) == pools;
  }

  predicate ReturnsUtxos(env: Env, utxos: seq<Utxo>)
    requires UtxosFit(utxos)
  {
    forall i :: 0 <= i < |utxos| ==> env.utxo(utxos[i].txid, utxos[i].index) == Ok(Some(utxos[i]))
  }

  predicate ReturnsNotes(env: Env, notes: seq<ReceivedNote>)
    requires NotesFit(notes)
  {
    forall i :: 0 <= i < |notes| ==> env.note(notes[i].txid, notes[i].pool, notes[i].index) == Ok(Some(notes[i]))
  }

  /** The database still returns the outputs a step was proposed with. */
  predicate Returns(env: Env, s: Step)
    requires StepFits(s)
  {
    ReturnsUtxos(env, s.transparentInputs) && ReturnsNotes(env, s.shieldedInputs)
  }

  /** One more wire input decodes to one more entry of its list. */
  lemma DecodeInputsSnoc(env: Env, inputs: seq<ProposedInput>, acc: Inputs, last: ProposedInput)
    requires DecodeInputs(env, inputs) == Ok(acc)
    ensures DecodeInputs(env, inputs + [last]) == DecodeInput(env, acc, |inputs|, last)
  {
    assert (inputs + [last])[..|inputs|] == inputs;
  }

  lemma {:induction false} UtxosRoundTrip(env: Env, utxos: seq<Utxo>)
    requires UtxosFit(utxos) && ReturnsUtxos(env, utxos)
    ensures DecodeInputs(env, EncodeUtxos(utxos)) == Ok(Inputs(utxos, [], []))
  {
    if utxos != [] {
      var front, last := utxos[..|utxos| - 1], utxos[|utxos| - 1];
      UtxosRoundTrip(env, front);
      assert EncodeUtxos(utxos) == EncodeUtxos(front) + [EncodeUtxo(last)];
      DecodeInputsSnoc(env, EncodeUtxos(front), Inputs(front, [], []), EncodeUtxo(last));
      assert utxos == front + [last];
    }
  }

  /** Encoded notes after other inputs land on the list of notes, in order. */
  lemma {:induction false} NotesRoundTrip(env: Env, before: seq<ProposedInput>, acc: Inputs, notes: seq<ReceivedNote>)
    requires NotesFit(notes) && ReturnsNotes(env, notes)
    requires DecodeInputs(env, before) == Ok(acc)
    ensures DecodeInputs(env, before + EncodeNotes(notes)) == Ok(acc.(shielded := acc.shielded + notes))
    decreases notes
  {
    hide DecodeInputs;
    if notes == [] {
      assert before + EncodeNotes(notes) == before && acc.shielded + notes == acc.shielded;
    } else {
      var front, last := notes[..|notes| - 1], notes[|notes| - 1];
      NotesRoundTrip(env, before, acc, front);
      assert before + EncodeNotes(notes) == before + EncodeNotes(front) + [EncodeNote(last)];
      DecodeInputsSnoc(env, before + EncodeNotes(front), acc.(shielded := acc.shielded + front), EncodeNote(last));
      PoolRoundTrip(Shielded(last.pool));
      assert acc.shielded + notes == acc.shielded + front + [last];
    }
  }

  lemma {:induction false} RefsRoundTrip(env: Env, before: seq<ProposedInput>, acc: Inputs, refs: seq<StepOutput>)
    requires RefsFit(refs)
    requires DecodeInputs(env, before) == Ok(acc)
    ensures DecodeInputs(env, before + EncodeRefs(refs)) == Ok(acc.(prior := acc.prior + refs))
    decreases refs
  {
    hide DecodeInputs;
    if refs == [] {
      assert before + EncodeRefs(refs) == before && acc.prior + refs == acc.prior;
    } else {
      var front, last := refs[..|refs| - 1], refs[|refs| - 1];
      RefsRoundTrip(env, before, acc, front);
      assert before + EncodeRefs(refs) == before + EncodeRefs(front) + [EncodeRef(last)];
      DecodeInputsSnoc(env, before + EncodeRefs(front), acc.(prior := acc.prior + front), EncodeRef(last));
      assert acc.prior + refs == acc.prior + front + [last];
    }
  }

  /** The flattened list splits back into the three lists it was made of. */
  lemma InputsRoundTrip(env: Env, s: Step)
    requires StepFits(s) && Returns(env, s)
    ensures DecodeInputs(env, EncodeInputs(s)) == Ok(Inputs(s.transparentInputs, s.shieldedInputs, s.priorStepInputs))
  {
    var utxos, notes := EncodeUtxos(s.transparentInputs), EncodeNotes(s.shieldedInputs);
    UtxosRoundTrip(env, s.transparentInputs);
    NotesRoundTrip(env, utxos, Inputs(s.transparentInputs, [], []), s.shieldedInputs);
    RefsRoundTrip(env, utxos + notes, Inputs(s.transparentInputs, [] + s.shieldedInputs, []), s.priorStepInputs);
    assert [] + s.shieldedInputs == s.shieldedInputs && [] + s.priorStepInputs == s.priorStepInputs;
  }

  lemma ChangeRoundTrip(env: Env, c: ChangeValue)
    requires env.CodecsFaithful()
    ensures DecodeChange(env, EncodeChange(env, c)) == Ok(c)
  {
    PoolRoundTrip(c.OutputPool());
  }

  lemma {:induction false} ChangesRoundTrip(env: Env, change: seq<ChangeValue>)
    requires env.CodecsFaithful()
    ensures DecodeChanges(env, EncodeChanges(env, change)) == Ok(change)
  {
    if change != [] {
      var front, last := change[..|change| - 1], change[|change| - 1];
      ChangesRoundTrip(env, front);
      assert EncodeChanges(env, change)[..|change| - 1] == EncodeChanges(env, front);
      ChangeRoundTrip(env, last);
      assert change == front + [last];
    }
  }

  lemma BalanceRoundTrip(env: Env, b: TransactionBalance)
    requires env.CodecsFaithful() && DummiesFit(b.dummyOutputs)
    ensures DecodeBalance(env, Some(EncodeBalance(env, b))) == Ok(b)
  {
    ChangesRoundTrip(env, b.proposedChange);
  }

  /** Once every part is decoded, an accepted step is rebuilt. */
  lemma FinishStepRestores(ironwoodActive: bool, prior: seq<Step>, wire: WireStep, s: Step)
    requires wire.isShielding == s.isShielding && wire.anchorHeight == s.anchorHeight.UnwrapOr(0)
    requires Built(ironwoodActive, prior, s) && s.anchorHeight != Some(0)
    ensures FinishStep(ironwoodActive, prior, wire, s.request, s.paymentPools,
                       Inputs(s.transparentInputs, s.shieldedInputs, s.priorStepInputs), s.balance) == Ok(s)
  {
    BuiltMeansChecksPass(ironwoodActive, prior, s);
  }

  lemma StepRoundTrip(env: Env, ironwoodActive: bool, prior: seq<Step>, s: Step)
    requires env.CodecsFaithful() && StepFits(s) && Returns(env, s)
    requires Built(ironwoodActive, prior, s) && s.anchorHeight != Some(0)
    ensures DecodeStep(env, ironwoodActive, prior, EncodeStep(env, s)) == Ok(s)
  {
    hide Built, FinishStep, DecodePools, DecodeInputs, DecodeBalance, EncodePools, EncodeInputs, EncodeBalance, Returns;
    var wire := EncodeStep(env, s);
    AllPoolsRoundTrip(s.paymentPools);
    assert ironwoodActive ==> PaysNoOrchard(s) by {
      StepAcceptedIff(ironwoodActive, prior, s);
    }
    InputsRoundTrip(env, s);
    BalanceRoundTrip(env, s.balance);
    FinishStepRestores(ironwoodActive, prior, wire, s);
  }

  predicate ReturnsAll(env: Env, steps: seq<Step>)
    requires StepsFit(steps)
  {
    forall i :: 0 <= i < |steps| ==> Returns(env, steps[i])
  }

  lemma {:induction false} StepsRoundTrip(env: Env, active: bool, steps: seq<Step>)
    requires env.CodecsFaithful() && WellBuilt(active, steps) && NoZeroAnchor(steps)
    requires StepsFit(steps) && ReturnsAll(env, steps)
    ensures DecodeSteps(env, active, EncodeSteps(env, steps)) == Ok(steps)
  {
    hide Built, EncodeStep, DecodeStep, StepFits, Returns;
    if steps != [] {
      var front, last := steps[..|steps| - 1], steps[|steps| - 1];
      StepsRoundTrip(env, active, front);
      assert EncodeSteps(env, steps)[..|steps| - 1] == EncodeSteps(env, front);
      StepRoundTrip(env, active, front, last);
      assert steps == front + [last];
    }
  }

  predicate VersionSupported(version: Option<TxVersion>) {
    version.None? || version.value == V5 || version.value == V6
  }

  /** Decoding the encoding of a valid proposal gives it back, for a database that still returns
      its inputs, exactly when no step is anchored at height zero and the requested transaction
      version is absent, V5 or V6. */
  lemma ProposalRoundTrip(env: Env, p: Proposal)
    requires env.CodecsFaithful() && StepsFit(p.steps) && ReturnsAll(env, p.steps)
    requires Valid(env.ironwoodActive(p.minTargetHeight), p.steps)
    ensures Decode(env, Encode(env, p)) == Ok(p) <==> NoZeroAnchor(p.steps) && VersionSupported(p.proposedVersion)
  {
    hide WellBuilt, CheckSteps, EncodeSteps, DecodeSteps, StepsFit, ReturnsAll;
    var active := env.ironwoodActive(p.minTargetHeight);
    if NoZeroAnchor(p.steps) {
      StepsRoundTrip(env, active, p.steps);
    }
    if Decode(env, Encode(env, p)) == Ok(p) {
      DecodedStepsAreBuilt(env, active, EncodeSteps(env, p.steps));
    }
  }

  /** `Proposal::single_step` makes no check across inputs, so the round trip asks for one more thing: that
      the step spends nothing twice. */
  lemma SingleStepRoundTrip(env: Env, p: Proposal, s: Step)
    requires env.CodecsFaithful() && p.steps == [s] && p.proposedVersion.None?
    requires StepFits(s) && Returns(env, s) && s.priorStepInputs == []
    requires Built(env.ironwoodActive(p.minTargetHeight), [], s)
    ensures StepsFit(p.steps)
    ensures Decode(env, Encode(env, p)) == Ok(p) <==> s.anchorHeight != Some(0) && NoDuplicates(ChainRefs(s))
  {
    hide Built, StepFits, Returns, Encode, Decode, CheckSteps;
    var active := env.ironwoodActive(p.minTargetHeight);
    assert WellBuilt(active, p.steps) by {
      assert p.steps[..0] == [];
    }
    assert CheckSteps(p.steps, 0, {}, {}).None? <==> NoDuplicates(ChainRefs(s)) by {
      AcceptedStepsPassIff(active, p.steps);
      assert p.steps[..0] == [];
      assert AllChainRefs(p.steps) == ChainRefs(s) && AllPriorRefs(p.steps) == [];
      assert RefsCounted(p.steps, 0);
    }
    if CheckSteps(p.steps, 0, {}, {}).None? {
      ProposalRoundTrip(env, p);
    } else if Decode(env, Encode(env, p)) == Ok(p) {
      DecodedParts(env, Encode(env, p));
    }
  }

  // ---------- Decoding what was decoded ----------

  /** The database returns the outputs it was asked for, or none. */
  ghost predicate ReturnsWhatIsAsked(env: Env) {
    && (forall txid, index :: env.utxo(txid, index).Ok? && env.utxo(txid, index).value.Some? ==>
          var u := env.utxo(txid, index).value.value; u.txid == txid && u.index == index)
    && (forall txid, pool, index :: env.note(txid, pool, index).Ok? && env.note(txid, pool, index).value.Some? ==>
          var n := env.note(txid, pool, index).value.value; n.txid == txid && n.pool == pool && n.index == index)
  }

  lemma {:induction false} DecodedInputsFit(env: Env, inputs: seq<ProposedInput>)
    requires ReturnsWhatIsAsked(env) && DecodeInputs(env, inputs).Ok?
    ensures
      var acc := DecodeInputs(env, inputs).value;
      && UtxosFit(acc.transparent) && ReturnsUtxos(env, acc.transparent)
      && NotesFit(acc.shielded) && ReturnsNotes(env, acc.shielded)
      && RefsFit(acc.prior)
  {
    if inputs != [] {
      DecodedInputsFit(env, inputs[..|inputs| - 1]);
    }
  }

  lemma {:induction false} DecodedPoolsFit(pools: seq<PaymentOutputPool>)
    requires DecodePools(pools).Ok?
    ensures forall k :: k in DecodePools(pools).value ==> Fits(k)
  {
    if pools != [] {
      DecodedPoolsFit(pools[..|pools| - 1]);
    }
  }

  lemma DecodedStepFits(env: Env, active: bool, prior: seq<Step>, wire: WireStep)
    requires ReturnsWhatIsAsked(env) && DecodeStep(env, active, prior, wire).Ok?
    ensures
      var s := DecodeStep(env, active, prior, wire).value;
      StepFits(s) && Returns(env, s)
  {
    hide DecodePools, DecodeInputs, ReturnsWhatIsAsked, FromParts, ProducesShieldedBundle;
    DecodedPoolsFit(wire.paymentOutputPools);
    DecodedInputsFit(env, wire.inputs);
    var parts := StepParts(env, wire);
    AcceptanceReturnsTheParts(prior, parts, active);
  }

  /** The parts that decoding a step hands to `FromParts`. */
  function StepParts(env: Env, wire: WireStep): Step
    requires env.fromUri(wire.transactionRequest).Some? && DecodePools(wire.paymentOutputPools).Ok?
    requires DecodeInputs(env, wire.inputs).Ok? && DecodeBalance(env, wire.balance).Ok?
  {
    var inputs := DecodeInputs(env, wire.inputs).value;
    Step(env.fromUri(wire.transactionRequest).value, DecodePools(wire.paymentOutputPools).value, inputs.transparent,
         inputs.shielded, if wire.anchorHeight == 0 then None else Some(wire.anchorHeight), inputs.prior,
         DecodeBalance(env, wire.balance).value, wire.isShielding)
  }

  lemma {:induction false} DecodedStepsFit(env: Env, active: bool, wire: seq<WireStep>)
    requires ReturnsWhatIsAsked(env) && DecodeSteps(env, active, wire).Ok?
    ensures
      var steps := DecodeSteps(env, active, wire).value;
      StepsFit(steps) && ReturnsAll(env, steps)
  {
    hide DecodeStep, StepFits, Returns, ReturnsWhatIsAsked;
    if wire != [] {
      var n := |wire| - 1;
      DecodedStepsFit(env, active, wire[..n]);
      DecodedStepFits(env, active, DecodeSteps(env, active, wire[..n]).value, wire[n]);
    }
  }

  /** Whatever message a proposal came from, encoding it again decodes to the same proposal. */
  lemma DecodedRoundTrips(env: Env, wire: WireProposal)
    requires env.CodecsFaithful() && ReturnsWhatIsAsked(env) && Decode(env, wire).Ok?
    ensures StepsFit(Decode(env, wire).value.steps)
    ensures Decode(env, Encode(env, Decode(env, wire).value)) == Decode(env, wire)
  {
    var p := Decode(env, wire).value;
    assert VersionSupported(p.proposedVersion) by {
      DecodedParts(env, wire);
    }
    hide Decode, Encode, DecodeSteps, CheckSteps, WellBuilt, ReturnsAll, ReturnsWhatIsAsked, Valid, SumOf, NoDuplicates;
    DecodedParts(env, wire);
    var active := env.ironwoodActive(p.minTargetHeight);
    DecodedStepsFit(env, active, wire.steps);
    DecodedStepsAreBuilt(env, active, wire.steps);
    DecodedIsValid(env, wire);
    ProposalRoundTrip(env, p);
  }
}
