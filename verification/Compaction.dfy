/**
 Dropping the fields of an Orchard-protocol action that others determine, and putting them back.

 The cryptography is a parameter: `Derivations` names the functions the code calls, and nothing is
 assumed about them except where a lemma says so. What makes compaction safe is only that it
 checks, before dropping a field, that resolving restores it.
 */
module Compaction {
  import opened Wrappers
  import opened Common
  import opened Memos
  import opened Orchard
  import C = Combiner
  import E = Encoding

  // ---------- Derivations ----------

  datatype NoteParts = NoteParts(version: NoteVersion, recipient: Bytes, value: nat, nullifier: Bytes, rseed: Bytes)

  datatype Derivations = Derivations(
    addressValid: Bytes -> bool,
    nullifierValid: Bytes -> bool,
    rhoValid: Bytes -> bool,
    rseedValid: (Bytes, Bytes) -> bool,
    noteValid: NoteParts -> bool,
    commitment: NoteParts -> Bytes,
    commitmentValid: Bytes -> bool,
    encrypt: (NoteParts, Memo) -> (Bytes, Bytes),
    decrypt: (NoteParts, Bytes, Bytes, Bytes) -> Option<Memo>,
    trapdoorValid: Bytes -> bool,
    valueCommitment: (int, Bytes) -> Bytes)

  datatype ResolveError =
    | InvalidExtractedNoteCommitment
    | InvalidRecipient
    | InvalidNullifier
    | InvalidRandomSeed
    | InvalidEncCiphertext
    | InvalidValueCommitment

  const ENC_CIPHERTEXT_SIZE := 580

  /** The note an action's output describes, if its fields are all there and valid. */
  function OutputNote(d: Derivations, version: NoteVersion, output: Output, nullifier: Bytes): Option<NoteParts> {
    if output.recipient.None? || output.rseed.None? || output.value.None? then None
    else
      var parts := NoteParts(version, output.recipient.value, output.value.value, nullifier, output.rseed.value);
      if && d.addressValid(parts.recipient) && d.rhoValid(nullifier)
         && d.rseedValid(parts.rseed, nullifier) && d.noteValid(parts)
      then Some(parts) else None
  }

  /** `Output::resolve_cmx`. */
  function ResolveCmx(d: Derivations, version: NoteVersion, output: Output, nullifier: Bytes)
    : Result<Output, ResolveError>
  {
    if output.cmx.Some? then Ok(output)
    else
      match OutputNote(d, version, output, nullifier)
      case None => Err(InvalidExtractedNoteCommitment)
      case Some(parts) => Ok(output.(cmx := Some(d.commitment(parts))))
  }

  /** `Output::encrypt_ciphertext_from_memo`. */
  function EncryptFromMemo(d: Derivations, version: NoteVersion, output: Output, nullifier: Bytes)
    : Result<Output, ResolveError>
  {
    match output.encCiphertext
    case Encrypted(_) => Ok(output)
    case MemoPlaintext(stripped) =>
      if output.recipient.None? || !d.addressValid(output.recipient.value) then Err(InvalidRecipient)
      else if !d.rhoValid(nullifier) then Err(InvalidNullifier)
      else if output.rseed.None? || !d.rseedValid(output.rseed.value, nullifier) then Err(InvalidRandomSeed)
      else if output.value.None? then Err(InvalidEncCiphertext)
      else
        var parts := NoteParts(version, output.recipient.value, output.value.value, nullifier, output.rseed.value);
        if !d.noteValid(parts) then Err(InvalidEncCiphertext)
        else
          var (ephemeralKey, ciphertext) := d.encrypt(parts, ToMemo(stripped));
          if ephemeralKey != output.ephemeralKey then Err(InvalidEncCiphertext)
          else Ok(output.(encCiphertext := Encrypted(ciphertext)))
  }

  /** `Action::resolve_cv_net`. */
  function ResolveCvNet(d: Derivations, a: Action): Result<Action, ResolveError> {
    if a.cvNet.Some? then Ok(a)
    else if a.spend.value.None? || a.output.value.None? || a.rcv.None? || !d.trapdoorValid(a.rcv.value) then
      Err(InvalidValueCommitment)
    else
      Ok(a.(cvNet := Some(d.valueCommitment(a.spend.value.value as int - a.output.value.value as int, a.rcv.value))))
  }

  function ResolveAction(d: Derivations, version: NoteVersion, a: Action): Result<Action, ResolveError> {
    var a1 :- ResolveCvNet(d, a);
    var o1 :- ResolveCmx(d, version, a1.output, a1.spend.nullifier);
    var o2 :- EncryptFromMemo(d, version, o1, a1.spend.nullifier);
    Ok(a1.(output := o2))
  }

  function ResolveActions(d: Derivations, version: NoteVersion, actions: seq<Action>)
    : Result<seq<Action>, ResolveError>
  {
    if actions == [] then Ok([])
    else
      var head :- ResolveAction(d, version, actions[0]);
      var tail :- ResolveActions(d, version, actions[1..]);
      Ok([head] + tail)
  }

  function Resolve(d: Derivations, b: Bundle): Result<Bundle, ResolveError> {
    var actions :- ResolveActions(d, b.noteVersion, b.actions);
    Ok(b.(actions := actions))
  }

  lemma ResolveAfterCvNet(d: Derivations, version: NoteVersion, a: Action)
    requires ResolveCvNet(d, a).Ok?
    ensures ResolveAction(d, version, ResolveCvNet(d, a).value) == ResolveAction(d, version, a)
  {
  }

  lemma ResolveAfterCmx(d: Derivations, version: NoteVersion, a: Action)
    requires a.cvNet.Some? && ResolveCmx(d, version, a.output, a.spend.nullifier).Ok?
    ensures
      var output := ResolveCmx(d, version, a.output, a.spend.nullifier).value;
      ResolveAction(d, version, a.(output := output)) == ResolveAction(d, version, a)
  {
  }

  lemma {:induction false} ResolvePointwise(d: Derivations, version: NoteVersion, xs: seq<Action>, ys: seq<Action>)
    requires |xs| == |ys|
    requires forall k :: 0 <= k < |xs| ==> ResolveAction(d, version, xs[k]) == ResolveAction(d, version, ys[k])
    ensures ResolveActions(d, version, xs) == ResolveActions(d, version, ys)
  {
    if xs != [] {
      ResolvePointwise(d, version, xs[1..], ys[1..]);
    }
  }

  /** `Bundle::resolve_fields`, in place and stopping at the first error. Even then nothing is lost:
      the actions resolve to what they resolved to before. */
  method ResolveFields(d: Derivations, version: NoteVersion, actions: array<Action>)
    returns (fault: Option<ResolveError>)
    modifies actions
    ensures ResolveActions(d, version, old(actions[..])) == if fault.None? then Ok(actions[..]) else Err(fault.value)
    ensures ResolveActions(d, version, actions[..]) == ResolveActions(d, version, old(actions[..]))
  {
    hide ResolveCvNet, ResolveCmx, EncryptFromMemo;
    ghost var before := actions[..];
    for i := 0 to actions.Length
      invariant forall k :: 0 <= k < i ==> ResolveAction(d, version, before[k]) == Ok(actions[k])
      invariant forall k :: i <= k < actions.Length ==> actions[k] == before[k]
      invariant forall k :: 0 <= k < actions.Length ==>
                  ResolveAction(d, version, actions[k]) == ResolveAction(d, version, before[k])
    {
      fault := ResolveInPlace(d, version, actions, i);
      if fault.Some? {
        ResolveStopsAt(d, version, before, i);
        ResolvePointwise(d, version, actions[..], before);
        return;
      }
    }
    ResolveEach(d, version, before, actions[..]);
    ResolvePointwise(d, version, actions[..], before);
    fault := None;
  }

  /** The three resolutions of one action. */
  method ResolveInPlace(d: Derivations, version: NoteVersion, actions: array<Action>, i: nat)
    returns (fault: Option<ResolveError>)
    requires i < actions.Length
    modifies actions
    ensures forall k :: 0 <= k < actions.Length && k != i ==> actions[k] == old(actions[k])
    ensures ResolveAction(d, version, old(actions[i])) == if fault.None? then Ok(actions[i]) else Err(fault.value)
    ensures ResolveAction(d, version, actions[i]) == ResolveAction(d, version, old(actions[i]))
  {
    var action := ResolveCvNet(d, actions[i]);
    if action.Err? {
      return Some(action.error);
    }
    ResolveAfterCvNet(d, version, actions[i]);
    actions[i] := action.value;
    var output := ResolveCmx(d, version, actions[i].output, actions[i].spend.nullifier);
    if output.Err? {
      return Some(output.error);
    }
    ResolveAfterCmx(d, version, actions[i]);
    actions[i] := actions[i].(output := output.value);
    var encrypted := EncryptFromMemo(d, version, actions[i].output, actions[i].spend.nullifier);
    if encrypted.Err? {
      return Some(encrypted.error);
    }
    actions[i] := actions[i].(output := encrypted.value);
    return None;
  }

  lemma {:induction false} ResolveStopsAt(d: Derivations, version: NoteVersion, actions: seq<Action>, i: nat)
    requires i < |actions|
    requires forall k :: 0 <= k < i ==> ResolveAction(d, version, actions[k]).Ok?
    requires ResolveAction(d, version, actions[i]).Err?
    ensures ResolveActions(d, version, actions) == Err(ResolveAction(d, version, actions[i]).error)
  {
    if i > 0 {
      forall k | 0 <= k < i - 1 ensures ResolveAction(d, version, actions[1..][k]).Ok? {
        assert actions[1..][k] == actions[k + 1];
      }
      ResolveStopsAt(d, version, actions[1..], i - 1);
    }
  }

  lemma {:induction false} ResolveEach(d: Derivations, version: NoteVersion, actions: seq<Action>,
                                       resolved: seq<Action>)
    requires |actions| == |resolved|
    requires forall k :: 0 <= k < |actions| ==> ResolveAction(d, version, actions[k]) == Ok(resolved[k])
    ensures ResolveActions(d, version, actions) == Ok(resolved)
  {
    if actions != [] {
      forall k | 0 <= k < |actions| - 1 ensures ResolveAction(d, version, actions[1..][k]) == Ok(resolved[1..][k]) {
        assert actions[1..][k] == actions[k + 1] && resolved[1..][k] == resolved[k + 1];
      }
      ResolveEach(d, version, actions[1..], resolved[1..]);
      assert resolved == [resolved[0]] + resolved[1..];
    }
  }

  // ---------- What resolving guarantees ----------

  /** The action's output has every field of its note. */
  predicate NoteKnown(a: Action) {
    a.output.recipient.Some? && a.output.value.Some? && a.output.rseed.Some?
  }

  /** The note of the action's output; its randomness is tied to the nullifier the action spends. */
  function NoteOf(version: NoteVersion, a: Action): NoteParts
    requires NoteKnown(a)
  {
    NoteParts(version, a.output.recipient.value, a.output.value.value, a.spend.nullifier, a.output.rseed.value)
  }

  predicate NoteBuildable(d: Derivations, version: NoteVersion, a: Action) {
    && NoteKnown(a)
    && d.addressValid(a.output.recipient.value)
    && d.rhoValid(a.spend.nullifier)
    && d.rseedValid(a.output.rseed.value, a.spend.nullifier)
    && d.noteValid(NoteOf(version, a))
  }

  /** Exactly what resolving needs: for a missing value commitment the two values and a valid trapdoor, for a
      missing note commitment a note, and for a memo a note whose encryption has the recorded key. */
  predicate Resolvable(d: Derivations, version: NoteVersion, a: Action) {
    && (a.cvNet.None? ==>
          a.spend.value.Some? && a.output.value.Some? && a.rcv.Some? && d.trapdoorValid(a.rcv.value))
    && (a.output.cmx.None? ==> NoteBuildable(d, version, a))
    && (a.output.encCiphertext.MemoPlaintext? ==>
          && NoteBuildable(d, version, a)
          && d.encrypt(NoteOf(version, a), ToMemo(a.output.encCiphertext.stripped)).0 == a.output.ephemeralKey)
  }

  /** `r` is `a` with the three fields filled in as the derivations give them, and nothing else changed. */
  predicate IsResolved(d: Derivations, version: NoteVersion, a: Action, r: Action)
    requires Resolvable(d, version, a)
  {
    && r == a.(cvNet := r.cvNet, output := a.output.(cmx := r.output.cmx, encCiphertext := r.output.encCiphertext))
    && r.cvNet == (if a.cvNet.Some? then a.cvNet
                   else Some(d.valueCommitment(a.spend.value.value as int - a.output.value.value as int, a.rcv.value)))
    && r.output.cmx == (if a.output.cmx.Some? then a.output.cmx else Some(d.commitment(NoteOf(version, a))))
    && r.output.encCiphertext ==
       (match a.output.encCiphertext
        case Encrypted(_) => a.output.encCiphertext
        case MemoPlaintext(stripped) => Encrypted(d.encrypt(NoteOf(version, a), ToMemo(stripped)).1))
  }

  /** Resolving an action succeeds exactly on that condition, and then fills in every field. */
  lemma ResolveActionIff(d: Derivations, version: NoteVersion, a: Action)
    ensures ResolveAction(d, version, a).Ok? <==> Resolvable(d, version, a)
    ensures Resolvable(d, version, a) ==> IsResolved(d, version, a, ResolveAction(d, version, a).value)
  {
  }

  lemma {:induction false} ResolveActionsIff(d: Derivations, version: NoteVersion, actions: seq<Action>)
    ensures ResolveActions(d, version, actions).Ok? <==>
            forall i :: 0 <= i < |actions| ==> Resolvable(d, version, actions[i])
    ensures ResolveActions(d, version, actions).Ok? ==>
              var r := ResolveActions(d, version, actions).value;
              |r| == |actions| && forall i :: 0 <= i < |r| ==> IsResolved(d, version, actions[i], r[i])
  {
    if actions != [] {
      hide ResolveAction, Resolvable, IsResolved;
      var tail := actions[1..];
      assert actions == [actions[0]] + tail;
      assert forall i :: 0 <= i < |tail| ==> tail[i] == actions[i + 1];
      ResolveActionIff(d, version, actions[0]);
      ResolveActionsIff(d, version, tail);
      if forall i :: 0 <= i < |actions| ==> Resolvable(d, version, actions[i]) {
        assert forall i :: 0 <= i < |tail| ==> Resolvable(d, version, tail[i]);
      }
      if ResolveActions(d, version, actions).Ok? {
        forall i | 0 <= i < |actions| ensures Resolvable(d, version, actions[i]) {
          assert i > 0 ==> Resolvable(d, version, tail[i - 1]);
        }
        forall i | 0 <= i < |actions|
          ensures IsResolved(d, version, actions[i], ResolveActions(d, version, actions).value[i])
        {
          assert i > 0 ==> IsResolved(d, version, tail[i - 1], ResolveActions(d, version, tail).value[i - 1]);
        }
      }
    }
  }

  /** Resolving a bundle succeeds exactly when every action can be resolved. Then every action of the result
      has its value commitment, its note commitment and its ciphertext, each the given or the derived one. */
  lemma ResolveSucceedsIff(d: Derivations, b: Bundle)
    ensures Resolve(d, b).Ok? <==> forall i :: 0 <= i < |b.actions| ==> Resolvable(d, b.noteVersion, b.actions[i])
    ensures Resolve(d, b).Ok? ==>
              var r := Resolve(d, b).value;
              && r == b.(actions := r.actions) && |r.actions| == |b.actions|
              && forall i :: 0 <= i < |r.actions| ==>
                   && IsResolved(d, b.noteVersion, b.actions[i], r.actions[i])
                   && r.actions[i].cvNet.Some? && r.actions[i].output.cmx.Some?
                   && r.actions[i].output.encCiphertext.Encrypted?
  {
    hide Resolvable, ResolveActions;
    ResolveActionsIff(d, b.noteVersion, b.actions);
    if Resolve(d, b).Ok? {
      var r := Resolve(d, b).value;
      forall i | 0 <= i < |r.actions|
        ensures && r.actions[i].cvNet.Some? && r.actions[i].output.cmx.Some?
                && r.actions[i].output.encCiphertext.Encrypted?
      {
        assert IsResolved(d, b.noteVersion, b.actions[i], r.actions[i]);
      }
    }
  }

  // ---------- Compaction ----------

  /** `recover_memo_plaintext_from_ciphertext_and_action`: needs every field, and the commitment. */
  function RecoverMemo(d: Derivations, version: NoteVersion, a: Action): Option<StrippedMemo> {
    if !a.output.encCiphertext.Encrypted? || |a.output.encCiphertext.ciphertext| != ENC_CIPHERTEXT_SIZE then None
    else
      var parts :- OutputNote(d, version, a.output, a.spend.nullifier);
      if !d.nullifierValid(a.spend.nullifier) || a.output.cmx.None? || !d.commitmentValid(a.output.cmx.value) then None
      else
        var memo :- d.decrypt(parts, a.output.cmx.value, a.output.ephemeralKey, a.output.encCiphertext.ciphertext);
        Some(FromMemo(memo))
  }

  /** `Action::replace_enc_ciphertext_with_decrypted_memo_plaintext`. */
  function ReplaceWithMemo(d: Derivations, version: NoteVersion, a: Action): Action {
    match RecoverMemo(d, version, a)
    case None => a
    case Some(stripped) => a.(output := a.output.(encCiphertext := MemoPlaintext(stripped)))
  }

  /** The ciphertext step of `Action::compact_resolvable_fields`: keep the memo only if encrypting
      it again gives the original ciphertext. */
  function CompactCiphertext(d: Derivations, version: NoteVersion, a: Action): Action {
    var replaced := ReplaceWithMemo(d, version, a);
    if replaced.output.encCiphertext == a.output.encCiphertext then replaced
    else
      match EncryptFromMemo(d, version, replaced.output, a.spend.nullifier)
      case Ok(resolved) => if resolved.encCiphertext == a.output.encCiphertext then replaced else a
      case Err(_) => a
  }

  function CompactCvNet(d: Derivations, a: Action): Action {
    if a.cvNet.None? then a
    else
      match ResolveCvNet(d, a.(cvNet := None))
      case Ok(resolved) => if resolved.cvNet == a.cvNet then a.(cvNet := None) else a
      case Err(_) => a
  }

  function CompactCmx(d: Derivations, version: NoteVersion, a: Action): Action {
    if a.output.cmx.None? then a
    else
      match ResolveCmx(d, version, a.output.(cmx := None), a.spend.nullifier)
      case Ok(resolved) => if resolved.cmx == a.output.cmx then a.(output := a.output.(cmx := None)) else a
      case Err(_) => a
  }

  /** `Action::compact_resolvable_fields`. */
  function Compact(d: Derivations, version: NoteVersion, a: Action): Action {
    CompactCmx(d, version, CompactCvNet(d, CompactCiphertext(d, version, a)))
  }

  function CompactActions(d: Derivations, version: NoteVersion, actions: seq<Action>): seq<Action> {
    seq(|actions|, i requires 0 <= i < |actions| => Compact(d, version, actions[i]))
  }

  function CompactBundle(d: Derivations, b: Bundle): Bundle {
    b.(actions := CompactActions(d, b.noteVersion, b.actions))
  }

  lemma CiphertextStepPreserves(d: Derivations, version: NoteVersion, a: Action)
    ensures ResolveAction(d, version, CompactCiphertext(d, version, a)) == ResolveAction(d, version, a)
  {
  }

  lemma CvNetStepPreserves(d: Derivations, version: NoteVersion, a: Action)
    ensures ResolveAction(d, version, CompactCvNet(d, a)) == ResolveAction(d, version, a)
  {
  }

  lemma CmxStepPreserves(d: Derivations, version: NoteVersion, a: Action)
    ensures ResolveAction(d, version, CompactCmx(d, version, a)) == ResolveAction(d, version, a)
  {
  }

  /** Resolving a compacted action gives what resolving the action gives, error or not. */
  lemma CompactPreservesResolve(d: Derivations, version: NoteVersion, a: Action)
    ensures ResolveAction(d, version, Compact(d, version, a)) == ResolveAction(d, version, a)
  {
    var a1 := CompactCiphertext(d, version, a);
    CiphertextStepPreserves(d, version, a);
    CvNetStepPreserves(d, version, a1);
    CmxStepPreserves(d, version, CompactCvNet(d, a1));
  }

  lemma {:induction false} CompactPreservesActions(d: Derivations, version: NoteVersion, actions: seq<Action>)
    ensures ResolveActions(d, version, CompactActions(d, version, actions)) == ResolveActions(d, version, actions)
  {
    if actions != [] {
      assert CompactActions(d, version, actions)[1..] == CompactActions(d, version, actions[1..]);
      CompactPreservesActions(d, version, actions[1..]);
      CompactPreservesResolve(d, version, actions[0]);
    }
  }

  /** Compaction preserves meaning, whatever the cryptography does. */
  lemma CompactionPreservesMeaning(d: Derivations, b: Bundle)
    ensures Resolve(d, CompactBundle(d, b)) == Resolve(d, b)
  {
    CompactPreservesActions(d, b.noteVersion, b.actions);
  }

  predicate FullyResolved(b: Bundle) {
    forall i :: 0 <= i < |b.actions| ==> E.ActionComplete(b.actions[i])
  }

  /** A bundle with every field present is restored exactly. */
  lemma CompactionIsLossless(d: Derivations, b: Bundle)
    requires FullyResolved(b)
    ensures Resolve(d, CompactBundle(d, b)) == Ok(b)
  {
    CompactionPreservesMeaning(d, b);
    ResolveEach(d, b.noteVersion, b.actions, b.actions);
  }

  lemma CompactActionIdempotent(d: Derivations, version: NoteVersion, a: Action)
    ensures Compact(d, version, Compact(d, version, a)) == Compact(d, version, a)
  {
    var a1 := CompactCiphertext(d, version, a);
    var a2 := CompactCvNet(d, a1);
    var a3 := CompactCmx(d, version, a2);
    assert CompactCiphertext(d, version, a3) == a3;
    assert CompactCvNet(d, a3) == a3;
    assert CompactCmx(d, version, a3) == a3;
  }

  lemma CompactionIdempotent(d: Derivations, b: Bundle)
    ensures CompactBundle(d, CompactBundle(d, b)) == CompactBundle(d, b)
  {
    forall i | 0 <= i < |b.actions|
      ensures Compact(d, b.noteVersion, Compact(d, b.noteVersion, b.actions[i])) ==
              Compact(d, b.noteVersion, b.actions[i])
    {
      CompactActionIdempotent(d, b.noteVersion, b.actions[i]);
    }
    assert CompactBundle(d, CompactBundle(d, b)).actions == CompactBundle(d, b).actions;
  }

  /** The note can be decrypted, with every check the code makes, to a memo that encrypts back to the same
      ciphertext and key. */
  predicate CiphertextDerivable(d: Derivations, version: NoteVersion, a: Action) {
    && a.output.encCiphertext.Encrypted? && |a.output.encCiphertext.ciphertext| == ENC_CIPHERTEXT_SIZE
    && NoteBuildable(d, version, a)
    && d.nullifierValid(a.spend.nullifier)
    && a.output.cmx.Some? && d.commitmentValid(a.output.cmx.value)
    && var note, ciphertext := NoteOf(version, a), a.output.encCiphertext.ciphertext;
    && d.decrypt(note, a.output.cmx.value, a.output.ephemeralKey, ciphertext).Some?
    && d.encrypt(note, d.decrypt(note, a.output.cmx.value, a.output.ephemeralKey, ciphertext).value) ==
       (a.output.ephemeralKey, ciphertext)
  }

  /** Exactly which fields compaction drops: those that the rest of the action derives, checked. */
  lemma CompactDropsIff(d: Derivations, version: NoteVersion, a: Action)
    ensures
      var c := Compact(d, version, a);
      && c == a.(cvNet := c.cvNet, output := a.output.(cmx := c.output.cmx, encCiphertext := c.output.encCiphertext))
      && c.cvNet ==
         (if && a.spend.value.Some? && a.output.value.Some? && a.rcv.Some? && d.trapdoorValid(a.rcv.value)
             && a.cvNet ==
                Some(d.valueCommitment(a.spend.value.value as int - a.output.value.value as int, a.rcv.value))
          then None else a.cvNet)
      && c.output.cmx ==
         (if NoteBuildable(d, version, a) && a.output.cmx == Some(d.commitment(NoteOf(version, a))) then None
          else a.output.cmx)
      && c.output.encCiphertext ==
         (if CiphertextDerivable(d, version, a) then
            MemoPlaintext(FromMemo(d.decrypt(NoteOf(version, a), a.output.cmx.value, a.output.ephemeralKey,
                                             a.output.encCiphertext.ciphertext).value))
          else a.output.encCiphertext)
  {
    CompactCiphertextIff(d, version, a);
    hide CompactCiphertext, CiphertextDerivable;
    var c1 := CompactCiphertext(d, version, a);
    CompactCvNetIff(d, c1);
    hide CompactCvNet;
    CompactCmxIff(d, version, CompactCvNet(d, c1));
  }

  lemma CompactCiphertextIff(d: Derivations, version: NoteVersion, a: Action)
    ensures CompactCiphertext(d, version, a) ==
            if CiphertextDerivable(d, version, a) then
              a.(output := a.output.(encCiphertext :=
                 MemoPlaintext(FromMemo(d.decrypt(NoteOf(version, a), a.output.cmx.value, a.output.ephemeralKey,
                                                  a.output.encCiphertext.ciphertext).value))))
            else a
  {
    if RecoverMemo(d, version, a).Some? {
      var memo := d.decrypt(NoteOf(version, a), a.output.cmx.value, a.output.ephemeralKey,
                            a.output.encCiphertext.ciphertext).value;
      MemoRestored(memo, FromMemo(memo));
    }
  }

  lemma CompactCvNetIff(d: Derivations, a: Action)
    ensures CompactCvNet(d, a) ==
            if && a.spend.value.Some? && a.output.value.Some? && a.rcv.Some? && d.trapdoorValid(a.rcv.value)
               && a.cvNet ==
                  Some(d.valueCommitment(a.spend.value.value as int - a.output.value.value as int, a.rcv.value))
            then a.(cvNet := None) else a
  {
  }

  lemma CompactCmxIff(d: Derivations, version: NoteVersion, a: Action)
    ensures CompactCmx(d, version, a) ==
            if NoteBuildable(d, version, a) && a.output.cmx == Some(d.commitment(NoteOf(version, a)))
            then a.(output := a.output.(cmx := None)) else a
  {
  }

  /** `Action::compact_resolvable_fields`, field by field in place. */
  method CompactResolvableFields(d: Derivations, version: NoteVersion, self: Action) returns (a: Action)
    ensures a == Compact(d, version, self)
  {
    a := ReplaceWithMemo(d, version, self);
    if a.output.encCiphertext != self.output.encCiphertext {
      var resolved := EncryptFromMemo(d, version, a.output, a.spend.nullifier);
      if resolved.Err? || resolved.value.encCiphertext != self.output.encCiphertext {
        a := a.(output := a.output.(encCiphertext := self.output.encCiphertext));
      }
    }
    if a.cvNet.Some? {
      var resolved := ResolveCvNet(d, a.(cvNet := None));
      if resolved.Ok? && resolved.value.cvNet == a.cvNet {
        a := a.(cvNet := None);
      }
    }
    if a.output.cmx.Some? {
      var resolved := ResolveCmx(d, version, a.output.(cmx := None), a.spend.nullifier);
      if resolved.Ok? && resolved.value.cmx == a.output.cmx {
        a := a.(output := a.output.(cmx := None));
      }
    }
  }

  /** `OrchardRedactor::compact_resolvable_fields`: every action of the bundle. */
  method CompactAllFields(d: Derivations, version: NoteVersion, actions: array<Action>)
    modifies actions
    ensures actions[..] == CompactActions(d, version, old(actions[..]))
    ensures ResolveActions(d, version, actions[..]) == ResolveActions(d, version, old(actions[..]))
  {
    hide Compact;
    for i := 0 to actions.Length
      invariant forall k :: 0 <= k < i ==> actions[k] == Compact(d, version, old(actions[k]))
      invariant forall k :: i <= k < actions.Length ==> actions[k] == old(actions[k])
    {
      actions[i] := CompactResolvableFields(d, version, actions[i]);
    }
    CompactPreservesActions(d, version, old(actions[..]));
    assert actions[..] == CompactActions(d, version, old(actions[..]));
  }

  /** An action built the way a Constructor builds one: its fields are what the derivations give. */
  predicate HonestlyBuilt(d: Derivations, version: NoteVersion, a: Action, memo: Memo) {
    && a.spend.value.Some? && a.rcv.Some? && d.trapdoorValid(a.rcv.value) && d.nullifierValid(a.spend.nullifier)
    && OutputNote(d, version, a.output, a.spend.nullifier).Some?
    && var parts := OutputNote(d, version, a.output, a.spend.nullifier).value;
    && a.cvNet == Some(d.valueCommitment(a.spend.value.value as int - a.output.value.value as int, a.rcv.value))
    && a.output.cmx == Some(d.commitment(parts)) && d.commitmentValid(a.output.cmx.value)
    && a.output.encCiphertext.Encrypted? && |a.output.encCiphertext.ciphertext| == ENC_CIPHERTEXT_SIZE
    && d.encrypt(parts, memo) == (a.output.ephemeralKey, a.output.encCiphertext.ciphertext)
  }

  predicate DecryptsTo(d: Derivations, version: NoteVersion, a: Action, memo: Memo)
    requires HonestlyBuilt(d, version, a, memo)
  {
    var parts := OutputNote(d, version, a.output, a.spend.nullifier).value;
    d.decrypt(parts, a.output.cmx.value, a.output.ephemeralKey, a.output.encCiphertext.ciphertext) == Some(memo)
  }

  /** If decryption undoes encryption, an honestly built action loses all three derivable fields. */
  lemma HonestActionCompactsFully(d: Derivations, version: NoteVersion, a: Action, memo: Memo)
    requires HonestlyBuilt(d, version, a, memo) && DecryptsTo(d, version, a, memo)
    ensures
      var c := Compact(d, version, a);
      c.cvNet.None? && c.output.cmx.None? && c.output.encCiphertext == MemoPlaintext(FromMemo(memo))
  {
    MemoRestored(memo, FromMemo(memo));
    var a1 := CompactCiphertext(d, version, a);
    assert a1 == a.(output := a.output.(encCiphertext := MemoPlaintext(FromMemo(memo))));
    var a2 := CompactCvNet(d, a1);
    assert a2 == a1.(cvNet := None);
  }

  // ---------- Across the wire ----------

  /** `Pczt::resolve_fields`. */
  function ResolvePczt(d: Derivations, p: C.Pczt): Result<C.Pczt, ResolveError> {
    var orchard :- Resolve(d, p.orchard);
    var ironwood :- Resolve(d, p.ironwood);
    Ok(p.(orchard := orchard, ironwood := ironwood))
  }

  function CompactPczt(d: Derivations, p: C.Pczt): C.Pczt {
    p.(orchard := CompactBundle(d, p.orchard), ironwood := CompactBundle(d, p.ironwood))
  }

  lemma {:induction false} ResolveKeepsLength(d: Derivations, version: NoteVersion, actions: seq<Action>)
    requires ResolveActions(d, version, actions).Ok?
    ensures |ResolveActions(d, version, actions).value| == |actions|
  {
    if actions != [] {
      ResolveKeepsLength(d, version, actions[1..]);
    }
  }

  /** Compacting a PCZT before sending it changes nothing for a receiver who resolves it: the
      same error, or the same PCZT up to the anchors that no encoding tells apart. */
  lemma CompactionSurvivesTheWire(codec: E.Postcard, d: Derivations, p: C.Pczt)
    requires codec.Faithful()
    ensures E.Serialize(codec, CompactPczt(d, p)).Ok?
    ensures E.Parse(codec, E.Serialize(codec, CompactPczt(d, p)).value).Ok?
    ensures
      var received := E.Parse(codec, E.Serialize(codec, CompactPczt(d, p)).value).value;
      match ResolvePczt(d, p)
      case Err(e) => ResolvePczt(d, received) == Err(e)
      case Ok(q) => ResolvePczt(d, received).Ok? && E.SameUpToAnchors(ResolvePczt(d, received).value, q)
  {
    var sent := CompactPczt(d, p);
    E.ParseInvertsSerialize(codec, sent);
    var received := E.Parse(codec, E.Serialize(codec, sent).value).value;
    E.NearCopiesShare(received, sent);
    CompactionPreservesMeaning(d, p.orchard);
    CompactionPreservesMeaning(d, p.ironwood);
    if ResolvePczt(d, p).Ok? {
      ResolveKeepsLength(d, p.orchard.noteVersion, p.orchard.actions);
      ResolveKeepsLength(d, p.ironwood.noteVersion, p.ironwood.actions);
    }
  }
}
