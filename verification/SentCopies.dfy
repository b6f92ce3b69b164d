/**
 Copies that travelled, were compacted or were resolved: whether they still merge with the others.

 The Combiner compares ciphertexts and anchors as they stand, so that sending or compacting a copy can
 cost it the ability to merge. Here is exactly when.
 */
module SentCopies {
  import opened Wrappers
  import opened PartialJoin
  import opened Common
  import opened Memos
  import opened Combiner
  import opened Encoding
  import opened Compaction
  import O = Orchard

  // ---------- Over the wire ----------

  /** The same PCZT with the anchors of another. */
  function WithAnchorsOf(p: Pczt, q: Pczt): Pczt {
    p.(sapling := p.sapling.(anchor := q.sapling.anchor),
       orchard := p.orchard.(anchor := q.orchard.anchor),
       ironwood := p.ironwood.(anchor := q.ironwood.anchor))
  }

  predicate AnchorsAgree(a: Pczt, b: Pczt) {
    && OptionsAgree(a.sapling.anchor, b.sapling.anchor)
    && OptionsAgree(a.orchard.anchor, b.orchard.anchor)
    && OptionsAgree(a.ironwood.anchor, b.ironwood.anchor)
  }

  /** Of two copies that agree, versions with other anchors agree exactly when those anchors do. */
  lemma OnlyAnchorsMatter(a: Pczt, b: Pczt, a': Pczt, b': Pczt)
    requires PcztsAgree(a, b)
    requires a' == WithAnchorsOf(a, a') && b' == WithAnchorsOf(b, b')
    ensures PcztsAgree(a', b') <==> AnchorsAgree(a', b')
  {
    hide ListsAgree, GlobalsAgree, OptionsAgree;
  }

  /** What a trip does to anchors, and that it changes nothing else. Version 1 turns a missing Sapling
      anchor into the placeholder and drops the placeholder of an Orchard bundle with no actions; version 2
      drops the placeholder of a bundle it omits. */
  lemma AnchorsAfterTrip(codec: Postcard, p: Pczt)
    requires codec.Faithful()
    ensures Serialize(codec, p).Ok? && Parse(codec, Serialize(codec, p).value).Ok?
    ensures
      var q := Parse(codec, Serialize(codec, p).value).value;
      && q == WithAnchorsOf(p, q)
      && q.sapling.anchor == (if V1Representable(p) then Some(p.sapling.anchor.UnwrapOr(DefaultAnchor()))
                              else if SaplingOmitted(p.sapling) then None else p.sapling.anchor)
      && q.orchard.anchor ==
         (if if V1Representable(p) then p.orchard.actions == [] else OrchardOmitted(p.orchard, O.EMPTY_ORCHARD)
          then DropDefault(p.orchard.anchor) else p.orchard.anchor)
      && q.ironwood.anchor ==
         (if OrchardOmitted(p.ironwood, O.EMPTY_IRONWOOD) then None else p.ironwood.anchor)
  {
    SerializePicksMinimal(codec, p);
    ParseInvertsSerialize(codec, p);
    var q := Parse(codec, Serialize(codec, p).value).value;
    NearCopiesShare(q, p);
    if V1Representable(p) {
      V1Anchors(p);
    } else {
      V2Anchors(p);
    }
  }

  lemma V1Anchors(p: Pczt)
    requires ToV1(p).Ok?
    ensures
      var q := FromV1(ToV1(p).value);
      && q.sapling.anchor == Some(p.sapling.anchor.UnwrapOr(DefaultAnchor()))
      && q.orchard.anchor == (if p.orchard.actions == [] then DropDefault(p.orchard.anchor) else p.orchard.anchor)
      && q.ironwood.anchor == None && OrchardOmitted(p.ironwood, O.EMPTY_IRONWOOD)
  {
    ActionsV1RoundTrip(p.orchard.actions);
  }

  lemma V2Anchors(p: Pczt)
    ensures FromV2(ToV2(p)).Ok?
    ensures
      var q := FromV2(ToV2(p)).value;
      && q.sapling.anchor == (if SaplingOmitted(p.sapling) then None else p.sapling.anchor)
      && q.orchard.anchor == (if OrchardOmitted(p.orchard, O.EMPTY_ORCHARD) then None else p.orchard.anchor)
      && q.ironwood.anchor == (if OrchardOmitted(p.ironwood, O.EMPTY_IRONWOOD) then None else p.ironwood.anchor)
  {
    ActionsV2RoundTrip(p.orchard.actions);
    ActionsV2RoundTrip(p.ironwood.actions);
  }

  /** `a` leaves without a Sapling anchor and in version 1, and `b` has a real one. */
  predicate PlaceholderClash(a: Pczt, b: Pczt) {
    && V1Representable(a) && a.sapling.anchor.None?
    && b.sapling.anchor.Some? && b.sapling.anchor.value != DefaultAnchor()
  }

  /** Sending one of two copies that merge keeps them mergeable, exactly but for the placeholder. */
  lemma TripKeepsMergeabilityIff(codec: Postcard, a: Pczt, b: Pczt)
    requires codec.Faithful() && MergePczt(a, b).Some?
    ensures Serialize(codec, a).Ok? && Parse(codec, Serialize(codec, a).value).Ok?
    ensures MergePczt(Parse(codec, Serialize(codec, a).value).value, b).Some? <==> !PlaceholderClash(a, b)
  {
    hide PcztsAgree, MergePczt, Serialize, Parse, V1Representable, DefaultAnchor;
    AnchorsAfterTrip(codec, a);
    var a' := Parse(codec, Serialize(codec, a).value).value;
    AgreementDecides(a, b);
    AgreementDecides(a', b);
    AgreedAnchors(a, b);
    OnlyAnchorsMatter(a, b, a', b);
  }

  lemma AgreedAnchors(a: Pczt, b: Pczt)
    requires PcztsAgree(a, b)
    ensures AnchorsAgree(a, b)
  {
  }

  /** At its smallest: of two copies that differ only in that one has a real Sapling anchor, the other no
      longer merges once it was sent. */
  lemma SentWithoutAnchorDoesNotMerge(codec: Postcard, p: Pczt, anchor: Bytes)
    requires codec.Faithful() && V1Representable(p) && p.global.ReservedBitsClear()
    requires p.sapling.anchor.None? && anchor != DefaultAnchor()
    ensures Serialize(codec, p).Ok? && Parse(codec, Serialize(codec, p).value).Ok?
    ensures
      var b := p.(sapling := p.sapling.(anchor := Some(anchor)));
      MergePczt(b, p) == Some(b) && MergePczt(Parse(codec, Serialize(codec, p).value).value, b).None?
  {
    var b := p.(sapling := p.sapling.(anchor := Some(anchor)));
    assert PcztLeq(p, b) by {
      OrderReflexive(p);
    }
    hide PcztsAgree, MergePczt, Serialize, Parse, V1Representable, DefaultAnchor, PcztLeq;
    MergeAbsorbs(b, p);
    MergeCommutes(b, p);
    TripKeepsMergeabilityIff(codec, p, b);
  }

  /** Sending both keeps them mergeable, exactly unless it does so in one of the two directions. */
  lemma TripsKeepMergeabilityIff(codec: Postcard, a: Pczt, b: Pczt)
    requires codec.Faithful() && MergePczt(a, b).Some?
    ensures Serialize(codec, a).Ok? && Parse(codec, Serialize(codec, a).value).Ok?
    ensures Serialize(codec, b).Ok? && Parse(codec, Serialize(codec, b).value).Ok?
    ensures
      var a', b' := Parse(codec, Serialize(codec, a).value).value, Parse(codec, Serialize(codec, b).value).value;
      MergePczt(a', b').Some? <==> !PlaceholderClash(a, b) && !PlaceholderClash(b, a)
  {
    hide PcztsAgree, MergePczt, Serialize, Parse, V1Representable, DefaultAnchor;
    AnchorsAfterTrip(codec, a);
    AnchorsAfterTrip(codec, b);
    var a', b' := Parse(codec, Serialize(codec, a).value).value, Parse(codec, Serialize(codec, b).value).value;
    AgreementDecides(a, b);
    AgreementDecides(a', b');
    AgreedAnchors(a, b);
    OnlyAnchorsMatter(a, b, a', b');
  }

  // ---------- Compacted copies ----------

  /** The ciphertext decrypts to a memo that encrypts back to it. */
  predicate Replaceable(d: Derivations, version: O.NoteVersion, a: O.Action) {
    var memo := RecoverMemo(d, version, a);
    && memo.Some?
    && EncryptFromMemo(d, version, a.output.(encCiphertext := O.MemoPlaintext(memo.value)), a.spend.nullifier) ==
       Ok(a.output)
  }

  predicate AnyReplaceable(d: Derivations, b: O.Bundle) {
    exists i :: 0 <= i < |b.actions| && Replaceable(d, b.noteVersion, b.actions[i])
  }

  lemma CompactActionIff(d: Derivations, version: O.NoteVersion, a: O.Action)
    ensures Compact(d, version, a).output.encCiphertext != a.output.encCiphertext <==> Replaceable(d, version, a)
    ensures !Replaceable(d, version, a) ==> O.ActionLeq(Compact(d, version, a), a)
  {
    var c := CompactCiphertext(d, version, a);
    assert c.output.encCiphertext != a.output.encCiphertext <==> Replaceable(d, version, a);
    assert c == a || Replaceable(d, version, a);
    var c2 := CompactCvNet(d, c);
    assert c2 == c || c2 == c.(cvNet := None);
    var c3 := CompactCmx(d, version, c2);
    assert c3 == c2 || c3 == c2.(output := c2.output.(cmx := None));
  }

  lemma CompactBundleIff(d: Derivations, b: O.Bundle, g: Global)
    ensures AnyReplaceable(d, b) ==> !O.BundlesAgree(CompactBundle(d, b), b, g, g)
    ensures !AnyReplaceable(d, b) ==> O.BundleLeq(CompactBundle(d, b), b, g)
  {
    hide Compact, Replaceable, O.ActionLeq;
    var c := CompactBundle(d, b);
    forall i | 0 <= i < |b.actions|
      ensures c.actions[i].output.encCiphertext != b.actions[i].output.encCiphertext <==>
              Replaceable(d, b.noteVersion, b.actions[i])
      ensures !Replaceable(d, b.noteVersion, b.actions[i]) ==> O.ActionLeq(c.actions[i], b.actions[i])
    {
      CompactActionIff(d, b.noteVersion, b.actions[i]);
    }
    if AnyReplaceable(d, b) {
      var i :| 0 <= i < |b.actions| && Replaceable(d, b.noteVersion, b.actions[i]);
      assert !O.ActionsAgree(c.actions[i], b.actions[i]);
    }
  }

  /** The same PCZT with the actions of another. */
  function WithActionsOf(p: Pczt, q: Pczt): Pczt {
    p.(orchard := p.orchard.(actions := q.orchard.actions), ironwood := p.ironwood.(actions := q.ironwood.actions))
  }

  /** A copy that differs from another only in that its actions hold less merges into it, in either order. */
  lemma PoorerCopyMerges(poorer: Pczt, p: Pczt)
    requires p.global.ReservedBitsClear() && PcztLeq(poorer, p)
    requires poorer == WithActionsOf(p, poorer)
    requires |poorer.orchard.actions| == |p.orchard.actions| && |poorer.ironwood.actions| == |p.ironwood.actions|
    ensures MergePczt(poorer, p) == Some(p) && MergePczt(p, poorer) == Some(p)
  {
    hide PcztLeq, PcztsAgree;
    MergeAbsorbs(p, poorer);
    MergeCommutes(p, poorer);
  }

  /** Actions aside, a PCZT extends itself. */
  lemma PoorerActionsLeq(poorer: Pczt, p: Pczt)
    requires p.global.ReservedBitsClear() && poorer == WithActionsOf(p, poorer)
    requires O.BundleLeq(poorer.orchard, p.orchard, p.global) && O.BundleLeq(poorer.ironwood, p.ironwood, p.global)
    ensures PcztLeq(poorer, p)
  {
    OrderReflexive(p);
  }

  /** A compacted copy merges with its own original exactly when compaction replaced no ciphertext by its
      memo, and then to the original, whichever comes first. */
  lemma CompactedCopyMergesIff(d: Derivations, p: Pczt)
    ensures
      var merged :=
        if p.global.ReservedBitsClear() && !AnyReplaceable(d, p.orchard) && !AnyReplaceable(d, p.ironwood)
        then Some(p) else None;
      MergePczt(CompactPczt(d, p), p) == merged && MergePczt(p, CompactPczt(d, p)) == merged
  {
    hide AnyReplaceable, O.BundleLeq, O.BundlesAgree, CompactActions, MergePczt, PcztLeq;
    var c := CompactPczt(d, p);
    CompactBundleIff(d, p.orchard, p.global);
    CompactBundleIff(d, p.ironwood, p.global);
    if p.global.ReservedBitsClear() && !AnyReplaceable(d, p.orchard) && !AnyReplaceable(d, p.ironwood) {
      PoorerActionsLeq(c, p);
      CompactKeepsLength(d, p.orchard);
      CompactKeepsLength(d, p.ironwood);
      PoorerCopyMerges(c, p);
    } else {
      AgreementDecides(c, p);
      MergeCommutes(c, p);
    }
  }

  lemma CompactKeepsLength(d: Derivations, b: O.Bundle)
    ensures |CompactBundle(d, b).actions| == |b.actions|
  {
  }

  /** So a copy with an honestly built Orchard action does not merge with its own compacted form. */
  lemma CompactedHonestCopyDoesNotMerge(d: Derivations, p: Pczt, i: nat, memo: Memo)
    requires i < |p.orchard.actions|
    requires HonestlyBuilt(d, p.orchard.noteVersion, p.orchard.actions[i], memo)
    requires DecryptsTo(d, p.orchard.noteVersion, p.orchard.actions[i], memo)
    ensures MergePczt(CompactPczt(d, p), p).None? && MergePczt(p, CompactPczt(d, p)).None?
  {
    var version, a := p.orchard.noteVersion, p.orchard.actions[i];
    assert Replaceable(d, version, a) by {
      HonestActionCompactsFully(d, version, a, memo);
      CompactActionIff(d, version, a);
    }
    hide HonestlyBuilt, DecryptsTo, Replaceable, MergePczt, CompactPczt;
    CompactedCopyMergesIff(d, p);
  }

  // ---------- Resolved copies ----------

  predicate AllEncrypted(b: O.Bundle) {
    forall i :: 0 <= i < |b.actions| ==> b.actions[i].output.encCiphertext.Encrypted?
  }

  lemma ResolveActionGrows(d: Derivations, version: O.NoteVersion, a: O.Action)
    requires ResolveAction(d, version, a).Ok?
    ensures ResolveAction(d, version, a).value.output.encCiphertext.Encrypted?
    ensures a.output.encCiphertext.Encrypted? ==> O.ActionLeq(a, ResolveAction(d, version, a).value)
  {
  }

  lemma {:induction false} ResolveAt(d: Derivations, version: O.NoteVersion, actions: seq<O.Action>, i: nat)
    requires ResolveActions(d, version, actions).Ok? && i < |actions|
    ensures |ResolveActions(d, version, actions).value| == |actions|
    ensures ResolveAction(d, version, actions[i]) == Ok(ResolveActions(d, version, actions).value[i])
  {
    ResolveKeepsLength(d, version, actions);
    if i > 0 {
      ResolveAt(d, version, actions[1..], i - 1);
    }
  }

  lemma ResolveBundleIff(d: Derivations, b: O.Bundle, g: Global)
    requires Resolve(d, b).Ok?
    ensures |Resolve(d, b).value.actions| == |b.actions|
    ensures !AllEncrypted(b) ==> !O.BundlesAgree(b, Resolve(d, b).value, g, g)
    ensures AllEncrypted(b) ==> O.BundleLeq(b, Resolve(d, b).value, g)
  {
    hide ResolveAction, O.ActionLeq;
    var r := Resolve(d, b).value;
    ResolveKeepsLength(d, b.noteVersion, b.actions);
    forall i | 0 <= i < |b.actions|
      ensures r.actions[i].output.encCiphertext.Encrypted?
      ensures b.actions[i].output.encCiphertext.Encrypted? ==> O.ActionLeq(b.actions[i], r.actions[i])
    {
      ResolveAt(d, b.noteVersion, b.actions, i);
      ResolveActionGrows(d, b.noteVersion, b.actions[i]);
    }
    if !AllEncrypted(b) {
      var i :| 0 <= i < |b.actions| && !b.actions[i].output.encCiphertext.Encrypted?;
      assert !O.ActionsAgree(b.actions[i], r.actions[i]);
    }
  }

  /** A resolved copy merges with the copy it was resolved from exactly when that held no memo in place of
      a ciphertext, and then to the resolved copy. */
  lemma ResolvedCopyMergesIff(d: Derivations, p: Pczt)
    requires ResolvePczt(d, p).Ok?
    ensures
      var q := ResolvePczt(d, p).value;
      var merged :=
        if p.global.ReservedBitsClear() && AllEncrypted(p.orchard) && AllEncrypted(p.ironwood) then Some(q) else None;
      MergePczt(p, q) == merged && MergePczt(q, p) == merged
  {
    hide AllEncrypted, O.BundleLeq, O.BundlesAgree, ResolveActions, MergePczt, PcztLeq;
    var q := ResolvePczt(d, p).value;
    ResolveBundleIff(d, p.orchard, p.global);
    ResolveBundleIff(d, p.ironwood, p.global);
    if p.global.ReservedBitsClear() && AllEncrypted(p.orchard) && AllEncrypted(p.ironwood) {
      PoorerActionsLeq(p, q);
      PoorerCopyMerges(p, q);
    } else {
      AgreementDecides(p, q);
      MergeCommutes(p, q);
    }
  }

  /** So a receiver who resolves a compacted copy can merge it with the original, if that was complete:
      what comes back is the original. */
  lemma ResolvedCompactedCopyMerges(d: Derivations, p: Pczt)
    requires p.global.ReservedBitsClear() && FullyResolved(p.orchard) && FullyResolved(p.ironwood)
    ensures ResolvePczt(d, CompactPczt(d, p)) == Ok(p)
    ensures MergePczt(ResolvePczt(d, CompactPczt(d, p)).value, p) == Some(p)
  {
    hide FullyResolved, MergePczt, Resolve, CompactActions;
    CompactionIsLossless(d, p.orchard);
    CompactionIsLossless(d, p.ironwood);
    MergeIdempotent(p);
  }
}
