# A model of the wallet libraries' hard parts

This project models, in Dafny, the parts of the wallet libraries whose correctness spans many
functions, and proves what they are for. `dafny verify dfyconfig.toml` checks all of it.

| component | modules |
|---|---|
| The PCZT Combiner: merging copies of a partial transaction | `PartialJoin`, `Common`, `Transparent`, `Sapling`, `Orchard`, `Combiner`, `TransparentCombiner` |
| PCZT encodings, and dropping derivable fields | `Encoding`, `Memos`, `Compaction`, `SentCopies`, `SerdeArrays` |
| Lock-time choice | `LockTime` |
| Transaction proposals and their wire form | `Sums`, `Proposals`, `ProposalRuns`, `ProposalWire`, `ProposalRoundTrips`, `ProposalMessages` |
| Change splitting, padding, canonical crossings | `Fees` |
| Account balances | `Balances` |
| The release publisher | `Publisher` |

**Merging.** Copies of a PCZT are ordered by the information they carry. The order is defined field
by field without mentioning the merge; a merge is then proved to be the least upper bound in it.
That one fact yields order independence, agreement of groupings, absorption and the exact conditions
for success. Whether copies agree is also said field by field; that agreement carries over from both
sides of a merge to its result, which decides when every order of combining succeeds. Two things are
outside the order, because the code does not join them: `bsk`, which is taken from the first copy, and
the value sum, which is taken from the longer list. For these the exact asymmetry is stated, and the
sum is proved to stay the one its list determines.

**Encodings.** The two wire versions are structures of their own. The serializer's choice, the round
trip, and the stability of bytes are stated for every PCZT. Compaction is proved to preserve meaning
for arbitrary cryptographic functions: it rests only on the checks the code makes.

**Proposals.** One step's validation is characterised by an if-and-only-if, and a series of steps is
then handled by induction: value conservation, single use and the Orchard turnstile hold over whole
proposals, and hence over everything the decoder accepts.

**Publisher.** The world is an oracle asked at successive times. Every event a run logs must have been
justified by the log before it; the properties of whole runs follow from that.

Loops of the source are methods with loops, proved equal to a specification function (or to a property)
whose own properties are the lemmas. Balances and publishing runs, which the source updates in place,
are classes. PCZT bundles are passed and returned by value in the source, and so they are here.

## What turned out to be false

- `determine_lock_time` returns `None` for an input that sets both kinds of lock time, where its own
  comment and BIP 370 choose the height (`LockTime.LockTimeFollowsBip370Iff`,
  `LockTime.SingleInputWithBothKinds`).
- Merging is not commutative: `bsk` is never copied from the other side, and between lists of equal
  lengths differing value sums are not noticed (`Combiner.MergeCommutes`, with inputs in
  `Combiner.EqualLengthSumsAreNotCompared` and `Combiner.KeysAreNotTakenOver`).
- Success of merging depends on grouping and order (`Combiner.OppositeGrowthNeedsJointCopy`,
  `Combiner.CombineOrderMatters`). Every order succeeds exactly when the copies merge pairwise
  (`Combiner.EveryOrderCombinesIff`).
- A compacted copy does not merge with its original once a ciphertext was replaced
  (`SentCopies.CompactedCopyMergesIff`, `SentCopies.CompactedHonestCopyDoesNotMerge`), and a copy sent
  without a Sapling anchor in version 1 does not merge with one that has a real anchor
  (`SentCopies.TripKeepsMergeabilityIff`, `SentCopies.SentWithoutAnchorDoesNotMerge`).
- Re-serializing a parsed PCZT can change its version, and so its bytes (`Encoding.ReserializeIsStable`,
  `Encoding.ReserializeCanChangeBytes`).
- `multi_step` counts payments where `from_parts` looks them up, so that it turns down a reference to a
  payment whose index is not below their number, although the step was accepted
  (`ProposalRuns.AcceptedStepsPassIff`, `ProposalRuns.AcceptedStepsRefused`).
- `unshielded_balance` expects a sum that two successful updates can put out of range
  (`Balances.UnshieldedBalanceCanFail`), and a rejected account update is kept
  (`Balances.RejectedUpdatesMayBeKept`, `Balances.FullAccountKeepsRejectedUpdate`).
- A proposal that `single_step` accepts can be refused on decoding, since it may spend an output twice
  (`ProposalRoundTrips.SingleStepRoundTrip`, `ProposalRuns.TwiceSpendingStepAccepted`).
- The publisher marks a published crate as failed if the last receipt write raises
  (`Publisher.FailureAfterUploadIff`, `Publisher.PublishedThenFailed`).

## Model

| member | source | states |
|---|---|---|
| `PartialJoin.MergeMapInto` | librustzcash/pczt/src/roles/combiner/mod.rs:87-107 | Moving entries over one key at a time gives the union of two maps, and fails exactly when some key holds different values. |
| `PartialJoin.MergeListInPlace` | librustzcash/pczt/src/transparent.rs:214-249 | Taking over the longer tail and merging entry by entry fails exactly when the shorter side is not modifiable or some overlapping entry fails, and otherwise gives the merged overlap followed by the excess. |
| `PartialJoin.ListUpper` | librustzcash/pczt/src/transparent.rs:214-249 | A list merge keeps every entry of both lists, refined. |
| `PartialJoin.ListLeast` | librustzcash/pczt/src/transparent.rs:214-249 | A list merge exists whenever the two lists have a common extension, and is below every such extension. |
| `PartialJoin.ListCommutes` | librustzcash/pczt/src/transparent.rs:214-249 | A list merge gives the same outcome with the sides exchanged, failures included. |
| `PartialJoin.ListSucceedsIff` | librustzcash/pczt/src/transparent.rs:214-249 | A list merge succeeds exactly when every shorter list is on a modifiable side and overlapping entries agree. |
| `PartialJoin.ListCoherent` | librustzcash/pczt/src/transparent.rs:214-249 | A list that agrees with two lists agrees with their merge. |
| `PartialJoin.EveryOrderFoldsIff` | librustzcash/pczt/src/roles/combiner/mod.rs:21-30 | For any merge whose results agree with whatever both sides agree with, every order of the copies folds exactly when the copies merge pairwise. |
| `PartialJoin.FoldOrderAgrees` | librustzcash/pczt/src/roles/combiner/mod.rs:21-30 | Folding any permutation of the same copies gives results that bound each other; if merges fail only for lack of a common extension, one permutation folds exactly when the other does. |
| `PartialJoin.GroupingAgrees` | librustzcash/pczt/src/roles/combiner/mod.rs:33-62 | Both groupings of three copies give results that bound each other, and under the same condition succeed together. |
| `Common.MergeGlobalInPlace` | librustzcash/pczt/src/common.rs:218-268 | Editing the modifiable flags one at a time gives the specified join: permissions are kept only if both sides have them, the SIGHASH_SINGLE mark if either has it, and reserved bits or differing headers fail. |
| `Common.GlobalUpper` | librustzcash/pczt/src/common.rs:218-268 | The merged globals extend both sides, and each permission survives exactly when both sides still have it. |
| `Common.GlobalLeast` | librustzcash/pczt/src/common.rs:218-268 | Globals with a common extension always merge, to the least one. |
| `Common.GlobalAntisymmetric` | librustzcash/pczt/src/common.rs:218-268 | Globals that extend each other are equal, down to the flag bits. |
| `Transparent.MergeBundleInPlace` | librustzcash/pczt/src/transparent.rs:202-320 | The in-place merge of inputs and outputs is the pair of list merges under the two modifiable flags. |
| `Transparent.InputLaws` | librustzcash/pczt/src/transparent.rs:246-293 | Merging inputs is a partial least upper bound: defined exactly on inputs with a common extension. |
| `Transparent.OutputLaws` | librustzcash/pczt/src/transparent.rs:295-317 | The same for outputs. |
| `Transparent.BundleUpper` | librustzcash/pczt/src/transparent.rs:202-320 | A merged bundle extends both sides, and a side without permission does not grow. |
| `Transparent.BundleLeast` | librustzcash/pczt/src/transparent.rs:202-320 | Bundles with a common extension always merge, to the least one, under the merged permissions. |
| `TransparentCombiner.CoreIsLeastUpperBound` | librustzcash/pczt/src/transparent.rs:202-320 | The merge of globals and transparent bundle exists exactly when some PCZT part extends both sides, and is then the one least upper bound. |
| `TransparentCombiner.CoreAssociative` | librustzcash/pczt/src/transparent.rs:202-320 | That merge is associative, failures included. |
| `TransparentCombiner.CoreOrderIrrelevant` | librustzcash/pczt/src/roles/combiner/mod.rs:21-30 | Folding any permutation of the same globals and transparent bundles gives the same outcome, failures included. |
| `TransparentCombiner.CoreSucceedsIff` | librustzcash/pczt/src/transparent.rs:202-320 | It succeeds exactly when headers match, reserved bits are clear, every shorter list is on a modifiable side, and everything both sides hold agrees. |
| `Transparent.InputSucceedsIff` | librustzcash/pczt/src/transparent.rs:246-293 | Two inputs merge exactly when their effects are equal and no field set on both sides differs. |
| `Transparent.OutputSucceedsIff` | librustzcash/pczt/src/transparent.rs:295-317 | Two outputs merge exactly when value and script are equal and no field set on both sides differs. |
| `Transparent.MergeCommutes` | librustzcash/pczt/src/transparent.rs:202-320 | Merging transparent bundles gives the same outcome with the sides exchanged, failures included. |
| `Transparent.BundleSucceedsIff` | librustzcash/pczt/src/transparent.rs:202-320 | Two transparent bundles merge exactly when they agree field by field under their permissions. |
| `Transparent.BundleCoherent` | librustzcash/pczt/src/transparent.rs:202-320 | A bundle that agrees with both sides of a merge agrees with the result. |
| `Sapling.MergeBundleInPlace` | librustzcash/pczt/src/sapling.rs:297-476 | The case analysis over `bsk`, lengths and permissions gives the specified merge: value sum of the longer side, `bsk` of the first, failure on growth in opposite directions. |
| `Sapling.SpendLaws` | librustzcash/pczt/src/sapling.rs:390-431 | Merging spends is a partial least upper bound. |
| `Sapling.OutputLaws` | librustzcash/pczt/src/sapling.rs:433-473 | Merging outputs is a partial least upper bound. |
| `Sapling.BundleUpper` | librustzcash/pczt/src/sapling.rs:297-476 | A merged bundle keeps every spend, output, field and anchor of both sides. |
| `Sapling.BundleLeast` | librustzcash/pczt/src/sapling.rs:297-476 | Given a common extension, a merge fails exactly when the binding signature keys conflict or the lists grow on opposite sides. |
| `Sapling.MergeCommutes` | librustzcash/pczt/src/sapling.rs:315-380 | Exchanging the sides changes the result exactly when the `bsk` differ, or lists of equal lengths carry different sums. |
| `Sapling.GroupingTakesSameSum` | librustzcash/pczt/src/sapling.rs:315-380 | Both groupings of three bundles, when they succeed, take the value sum and `bsk` of the same bundle. |
| `Sapling.MergeKeepsSum` | librustzcash/pczt/src/sapling.rs:297-476 | If both value sums are spends minus outputs as determined by the effecting data, so is that of every successful merge. |
| `Sapling.SpendSucceedsIff` | librustzcash/pczt/src/sapling.rs:390-431 | Two spends merge exactly when their effects are equal and no field set on both sides differs. |
| `Sapling.OutputSucceedsIff` | librustzcash/pczt/src/sapling.rs:433-473 | Two outputs merge exactly when their effects are equal and no field set on both sides differs. |
| `Sapling.BundleSucceedsIff` | librustzcash/pczt/src/sapling.rs:297-476 | Two Sapling bundles merge exactly when keys, sums, growth, permissions, anchors and overlapping entries agree. |
| `Sapling.MergeSucceedsOnFieldsIff` | librustzcash/pczt/src/sapling.rs:297-476 | Success on the fields: once either side has a `bsk`, lengths and value sums are equal and so are two keys; lists do not grow on opposite sides, and grow only with permission; anchors and overlapping entries agree. |
| `Sapling.KeysPinSums` | librustzcash/pczt/src/sapling.rs:315-325 | With a `bsk` on either side, bundles that differ only in their sums, or in two keys, do not merge. |
| `Sapling.BundleCoherent` | librustzcash/pczt/src/sapling.rs:297-476 | A bundle that agrees with both sides of a merge agrees with the result. |
| `Orchard.MergeBundleInPlace` | librustzcash/pczt/src/orchard.rs:1678-1815 | The case analysis over `bsk`, lengths and permissions gives the specified merge. |
| `Orchard.ActionLaws` | librustzcash/pczt/src/orchard.rs:1742-1812 | Merging actions is a partial least upper bound. |
| `Orchard.BundleUpper` | librustzcash/pczt/src/orchard.rs:1678-1815 | A merged bundle keeps every action, optional field and map entry of both sides. |
| `Orchard.BundleLeast` | librustzcash/pczt/src/orchard.rs:1678-1815 | Given a common extension, a merge fails exactly when the binding signature keys conflict. |
| `Orchard.MergeCommutes` | librustzcash/pczt/src/orchard.rs:1701-1729 | Exchanging the sides changes the result exactly when the `bsk` differ, or lists of equal length carry different sums. |
| `Orchard.GroupingTakesSameSum` | librustzcash/pczt/src/orchard.rs:1701-1729 | Both groupings of three bundles, when they succeed, take the value sum and `bsk` of the same bundle. |
| `Orchard.MergeKeepsSum` | librustzcash/pczt/src/orchard.rs:1678-1815 | If both value sums are the net value of the action lists, so is that of every successful merge. |
| `Orchard.SpendLaws` | librustzcash/pczt/src/orchard.rs:1742-1812 | Merging the spend halves of actions is a partial least upper bound. |
| `Orchard.OutputLaws` | librustzcash/pczt/src/orchard.rs:1742-1812 | Merging the output halves of actions is a partial least upper bound. |
| `Orchard.ActionSucceedsIff` | librustzcash/pczt/src/orchard.rs:1742-1812 | Two actions merge exactly when the fields every copy must hold are equal and no field set on both sides differs. |
| `Orchard.BundleSucceedsIff` | librustzcash/pczt/src/orchard.rs:1678-1815 | Two bundles merge exactly when flags, note version, keys, sums, permissions, anchors, proofs and overlapping actions agree. |
| `Orchard.MergeSucceedsOnFieldsIff` | librustzcash/pczt/src/orchard.rs:1678-1815 | Success on the fields: once either side has a `bsk`, lengths and value sums are equal and so are two keys; lists grow only with permission; flags, note version, anchors, proofs and overlapping actions agree. |
| `Orchard.KeysPinSums` | librustzcash/pczt/src/orchard.rs:1701-1709 | With a `bsk` on either side, bundles that differ only in their sums, or in two keys, do not merge. |
| `Orchard.BundleCoherent` | librustzcash/pczt/src/orchard.rs:1678-1815 | A bundle that agrees with both sides of a merge agrees with the result. |
| `Combiner.Merge` | librustzcash/pczt/src/roles/combiner/mod.rs:33-62 | Merging bundle after bundle and then the globals, with early failure, is the merge all lemmas below are about. |
| `Combiner.Combine` | librustzcash/pczt/src/roles/combiner/mod.rs:21-30 | The loop over the copies is the left fold of that merge: `NoPczts` on none, `DataMismatch` on the first failure. |
| `Combiner.MergeUpper` | librustzcash/pczt/src/roles/combiner/mod.rs:33-62 | A merge loses nothing that either copy holds and gives back no permission. |
| `Combiner.MergeLeast` | librustzcash/pczt/src/roles/combiner/mod.rs:33-62 | A merge invents nothing: it is below every common extension, and with one in sight fails only over keys, sums or opposite Sapling growth. |
| `Combiner.MergeSucceedsIff` | librustzcash/pczt/src/roles/combiner/mod.rs:33-62 | Two copies merge exactly when they agree field by field, which is exactly when some PCZT extends both and they are compatible in keys, sums and growth. |
| `Combiner.MergeAbsorbs` | librustzcash/pczt/src/roles/combiner/mod.rs:33-62 | Merging in a copy that holds nothing new changes nothing, not even sums or keys. |
| `Combiner.MergeIdempotent` | librustzcash/pczt/src/roles/combiner/mod.rs:33-62 | A copy merges with itself to itself, exactly when its reserved flag bits are clear. |
| `Combiner.MergeCommutes` | librustzcash/pczt/src/roles/combiner/mod.rs:33-62 | Failure never depends on the order of two copies; of copies that agree, the result does exactly where a `bsk`, or a sum between lists of equal lengths, differs. |
| `Combiner.EqualLengthSumsAreNotCompared` | librustzcash/pczt/src/sapling.rs:328-381 | Copies that differ only in a Sapling sum merge, and each order returns its first argument. |
| `Combiner.KeysAreNotTakenOver` | librustzcash/pczt/src/orchard.rs:1701-1709 | Copies that differ only in that one has an Orchard `bsk` merge, and each order returns its first argument. |
| `Combiner.MergeGroupingAgrees` | librustzcash/pczt/src/roles/combiner/mod.rs:33-62 | Whenever both groupings of three copies succeed, they give the very same PCZT. |
| `Combiner.RegroupingSucceedsIff` | librustzcash/pczt/src/roles/combiner/mod.rs:33-62 | If one grouping of three copies succeeds, the other does exactly when the two copies it merges first are compatible. |
| `Combiner.OppositeGrowthNeedsJointCopy` | librustzcash/pczt/src/sapling.rs:327-340 | Success is not associative: of two copies, one with a new Sapling spend and one with a new output, each merges into a copy with both, but they do not merge with each other. |
| `Combiner.CombineOrderMatters` | librustzcash/pczt/src/roles/combiner/mod.rs:21-30 | So there are three copies that combine in one order and fail in another. |
| `Combiner.EveryOrderCombinesIff` | librustzcash/pczt/src/roles/combiner/mod.rs:21-30 | Every order of two or more copies combines exactly when any two of them merge, that is, agree field by field. |
| `Combiner.GivenOrderCombinesIff` | librustzcash/pczt/src/roles/combiner/mod.rs:21-30 | A given order of two or more copies combines exactly when some PCZT extends them all and each copy is compatible, in keys, sums and growth, with the first longest bundles before it under the key of the first copy. |
| `Combiner.FoldHasLeaderShape` | librustzcash/pczt/src/roles/combiner/mod.rs:21-30 | The combined PCZT has, pool by pool, the lengths and the sum of the first longest bundle and the key of the first copy. |
| `Combiner.CombineOrderAgrees` | librustzcash/pczt/src/roles/combiner/mod.rs:21-30 | If any two copies agree, all orders succeed; and all orders that succeed agree on everything but sums and keys. |
| `Combiner.CombineKeepsSums` | librustzcash/pczt/src/roles/combiner/mod.rs:21-30 | If every copy records the sums its lists determine, so does the combined PCZT. |
| `Combiner.CombineOrderExact` | librustzcash/pczt/src/roles/combiner/mod.rs:21-30 | With correct sums and equal keys, all orders that succeed give the very same PCZT, and all orders do succeed if any two copies agree. |
| `Encoding.HeaderRoundTrip` | librustzcash/pczt/src/lib.rs:82-102 | Parsing a serialized header returns its version and exactly the bytes after it. |
| `Encoding.ActionsToV1Iff` | librustzcash/pczt/src/orchard.rs:857-966 | A list of actions fits version 1 exactly when every action has its value commitment, note commitment and ciphertext. |
| `Encoding.ActionsV1RoundTrip` | librustzcash/pczt/src/orchard.rs:857-966 | A list of actions that version 1 can hold survives it unchanged. |
| `Encoding.ActionsV2RoundTrip` | librustzcash/pczt/src/orchard.rs:1120-1230 | Every list of actions survives version 2 unchanged. |
| `Encoding.ThroughV1` | librustzcash/pczt/src/lib.rs:158-194 | A PCZT sent through version 1 comes back the same, up to absent or all-zero anchors of bundles with no spends or actions, and encodes to the same structure again. |
| `Encoding.ThroughV2` | librustzcash/pczt/src/lib.rs:276-308 | The same through version 2, which never fails. |
| `Encoding.SerializePicksMinimal` | librustzcash/pczt/src/lib.rs:460-474 | Serializing always succeeds, and picks version 1 exactly when version 1 can represent the PCZT, a condition stated on its fields. |
| `Encoding.ParseInvertsSerialize` | librustzcash/pczt/src/lib.rs:437-474 | Parsing what was serialized gives the PCZT back up to those anchors. |
| `Encoding.ParserChecksMemos` | librustzcash/pczt/src/orchard.rs:349-357 | A version 2 structure is refused as invalid exactly when one of its memos is too long or not stripped. |
| `Encoding.ToV2` | librustzcash/pczt/src/orchard.rs:1234-1240 | Whatever is converted to version 2 passes the parser's check on memos. |
| `Encoding.ParseSucceedsIff` | librustzcash/pczt/src/lib.rs:82-95 | Parsing succeeds exactly on the magic bytes, a version of one or two, and a body that the codec of that version decodes, for version 2 to a structure with stripped memos, nullifiers and keys; the other errors follow the first fault. |
| `Encoding.OmittedIff` | librustzcash/pczt/src/lib.rs:276-290 | Version 2 leaves a bundle out exactly when it is empty, a missing and an all-zero anchor both counting as nothing. |
| `Encoding.ReserializeIsStable` | librustzcash/pczt/src/lib.rs:437-474 | Parsing and serializing again gives the same bytes, except exactly when the only thing that kept the PCZT out of version 1 was an all-zero anchor in an empty Ironwood slot. |
| `Encoding.ReserializeCanChangeBytes` | librustzcash/pczt/src/lib.rs:437-474 | Any PCZT that fits version 1, given an all-zero Ironwood anchor, serializes to other bytes after parsing. |
| `Encoding.NearCopiesMerge` | librustzcash/pczt/src/roles/combiner/mod.rs:33-62 | Copies that differ only in those anchors always merge, to a result that differs from neither in anything else. |
| `Encoding.CrossVersionCopiesMerge` | librustzcash/pczt/src/orchard.rs:801-855 | Two copies of one PCZT, one sent through each version, always merge in either order, to the original up to those anchors. |
| `Memos.MemoRestored` | librustzcash/pczt/src/orchard.rs:306-338 | Every memo is restored from its stripped form, and every stripped form from its memo. |
| `Memos.StrippedAcceptedIff` | librustzcash/pczt/src/orchard.rs:317-357 | Deserializing accepts exactly the stripped forms of memos, each as itself, so that each memo has one encoding. |
| `Compaction.ResolveFields` | librustzcash/pczt/src/orchard.rs:2088-2100 | In-place resolution gives the specified bundle or its first error; even on an error, what the actions resolve to has not changed. |
| `Compaction.ResolveInPlace` | librustzcash/pczt/src/orchard.rs:2089-2096 | Resolving one action in place gives the specified action or error, touches no other action, and leaves a partly resolved action with the same outcome. |
| `Compaction.ResolveSucceedsIff` | librustzcash/pczt/src/orchard.rs:2088-2100 | Resolving a bundle succeeds exactly when every action has what its missing fields need; then every action has its value commitment, note commitment and ciphertext, each the given or the derived one, and nothing else changed. |
| `Compaction.ResolveActionIff` | librustzcash/pczt/src/orchard.rs:1937-2085 | The same for one action: an absent note commitment becomes that of the note, and a memo a ciphertext whose encryption has the recorded ephemeral key. |
| `Compaction.CompactResolvableFields` | librustzcash/pczt/src/orchard.rs:488-521 | Dropping fields one after the other gives the specified compact action. |
| `Compaction.CompactDropsIff` | librustzcash/pczt/src/orchard.rs:386-521 | Exactly which fields compaction drops: a value or note commitment that equals the derived one, and a ciphertext that decrypts under every check to a memo that encrypts back to it and to the same key. |
| `Compaction.CompactAllFields` | librustzcash/pczt/src/roles/redactor/orchard.rs:39-44 | Compacting all actions in place leaves what they resolve to unchanged. |
| `Compaction.CompactPreservesResolve` | librustzcash/pczt/src/orchard.rs:479-521 | Resolving a compacted action gives what resolving the action gives, error or not, for any cryptographic functions. |
| `Compaction.CompactionPreservesMeaning` | librustzcash/pczt/src/orchard.rs:479-521 | The same for every bundle. |
| `Compaction.CompactionIsLossless` | librustzcash/pczt/src/orchard.rs:479-521 | A bundle with every field present is restored exactly. |
| `Compaction.CompactionIdempotent` | librustzcash/pczt/src/orchard.rs:479-521 | Compacting twice is compacting once. |
| `Compaction.HonestActionCompactsFully` | librustzcash/pczt/src/orchard.rs:386-521 | If decryption undoes encryption, an honestly built action loses all three derivable fields. |
| `Compaction.CompactionSurvivesTheWire` | librustzcash/pczt/src/lib.rs:437-485 | A PCZT compacted, serialized, parsed (the check on memos included) and resolved is the PCZT resolved without that detour, up to those anchors, with the same error if any. |
| `SentCopies.AnchorsAfterTrip` | librustzcash/pczt/src/lib.rs:437-474 | The three anchors after a trip over the wire, in either version, and that nothing else changes. |
| `SentCopies.TripKeepsMergeabilityIff` | librustzcash/pczt/src/sapling.rs:496-547 | Sending one of two copies that merge keeps them mergeable, exactly unless it has no Sapling anchor and fits version 1 while the other has a nonzero anchor. |
| `SentCopies.SentWithoutAnchorDoesNotMerge` | librustzcash/pczt/src/sapling.rs:496-547 | Inputs for that: of two copies that differ only in a Sapling anchor, the one without no longer merges once it was sent. |
| `SentCopies.TripsKeepMergeabilityIff` | librustzcash/pczt/src/sapling.rs:496-547 | Sending both keeps them mergeable, exactly unless that happens in one of the two directions. |
| `SentCopies.CompactedCopyMergesIff` | librustzcash/pczt/src/orchard.rs:488-521 | A compacted copy merges with its original, and then to the original, exactly when no ciphertext could be replaced by a memo that encrypts back to it. |
| `SentCopies.CompactedHonestCopyDoesNotMerge` | librustzcash/pczt/src/orchard.rs:488-521 | Inputs for that: a copy with an honestly built action that decrypts does not merge with its compacted form, in either order. |
| `SentCopies.ResolvedCopyMergesIff` | librustzcash/pczt/src/orchard.rs:2088-2100 | A resolved copy merges with the one it came from, and then to itself, exactly when that held no memo in place of a ciphertext. |
| `SentCopies.ResolvedCompactedCopyMerges` | librustzcash/pczt/src/orchard.rs:2088-2100 | A complete copy, compacted and resolved again, is the original and merges with it. |
| `LockTime.LockTimeMeaning` | librustzcash/pczt/src/common.rs:295-349 | The choice fails exactly when both kinds of requirement occur; otherwise it is the maximum of the one kind that occurs, or the fallback. |
| `LockTime.LockTimeOrderIrrelevant` | librustzcash/pczt/src/common.rs:295-349 | The choice does not depend on the order of the inputs. |
| `LockTime.LockTimeFollowsBip370Iff` | librustzcash/pczt/src/common.rs:312-349 | It departs from "Determining Lock Time" of BIP 370 exactly when both kinds occur although all inputs support one of them. |
| `LockTime.SingleInputWithBothKinds` | librustzcash/pczt/src/common.rs:312-336 | The smallest such case: one input setting both kinds, where the code fails and the BIP takes the height. |
| `LockTime.LockTimeFollowsBip370` | librustzcash/pczt/src/common.rs:295-349 | It follows the BIP whenever no input sets both kinds. |
| `Proposals.NewBalance` | librustzcash/zcash_client_backend/src/fees.rs:310-327 | A balance exists exactly when change and fee together are in range. |
| `Proposals.TotalsMeaning` | librustzcash/zcash_client_backend/src/proposal.rs:711-767 | The checked totals exist exactly when all references denote outputs and both sides are in range, and are then the true sums. |
| `Proposals.TurnstileMeaning` | librustzcash/zcash_client_backend/src/proposal.rs:769-812 | The turnstile check passes exactly when no payment goes to Orchard and positive Orchard change, summed over all change, is less than the Orchard value spent, summed over all notes. |
| `Proposals.StepAcceptedIff` | librustzcash/zcash_client_backend/src/proposal.rs:674-842 | A step is accepted exactly when its payments are assigned, its references denote earlier outputs, inputs are in range and equal outputs, and the shielding, turnstile and anchor rules hold. |
| `Proposals.NotesInKeeps` | librustzcash/zcash_client_backend/src/proposal.rs:790-796 | Filtering notes by pool keeps those of the pool and no others, as often as they occur. |
| `Proposals.ChangeInKeeps` | librustzcash/zcash_client_backend/src/proposal.rs:798-804 | Filtering change by pool keeps that of the pool and no other, as often as it occurs. |
| `Proposals.StepAcceptedOnFieldsIff` | librustzcash/zcash_client_backend/src/proposal.rs:674-842 | Acceptance on the fields of the step: receivers, amounts, references, sums, shielding, turnstile, and an anchor for any shielded part. |
| `Proposals.RefusalsAreTruthful` | librustzcash/zcash_client_backend/src/proposal.rs:674-842 | Whatever error a step is refused with is true of it, with the amounts, payment or reference it names. |
| `Proposals.WellBuiltIsSound` | librustzcash/zcash_client_backend/src/proposal.rs:674-842 | In a series of steps each accepted against its predecessors, every step balances and respects the turnstile. |
| `ProposalRuns.AcceptedStepsPassIff` | librustzcash/zcash_client_backend/src/proposal.rs:314-379 | Steps that were each accepted pass as a proposal exactly when nothing is used twice and every referenced payment has an index below the number of payments of its step, which no step was checked for. |
| `ProposalRuns.AcceptedStepsRefused` | librustzcash/zcash_client_backend/src/proposal.rs:331-336 | Two concrete steps, each accepted, that are refused as a proposal: the first has its only payment at index one and the second spends it. |
| `ProposalRuns.TwiceSpendingStepAccepted` | librustzcash/zcash_client_backend/src/proposal.rs:400-434 | A concrete step that spends one output twice: accepted by itself, which is all `single_step` asks, and refused by the whole-proposal pass. |
| `ProposalRuns.ConsumePriorRefs` | librustzcash/zcash_client_backend/src/proposal.rs:324-347 | The loop over references, inserting into the consumed set, finds the specified first fault. |
| `ProposalRuns.ConsumeChainRefs` | librustzcash/zcash_client_backend/src/proposal.rs:349-369 | The loops over chain inputs find the specified first double spend. |
| `ProposalRuns.MultiStep` | librustzcash/zcash_client_backend/src/proposal.rs:314-379 | The loop over steps with its two mutable sets finds the specified first fault. |
| `ProposalRuns.MultiStepAcceptsIff` | librustzcash/zcash_client_backend/src/proposal.rs:314-379 | A proposal passes exactly when every reference points strictly back in bounds and neither a step output nor a chain output is used twice, within or across steps. |
| `ProposalRuns.ProposalPassesIff` | librustzcash/zcash_client_backend/src/proposal.rs:314-379 | A proposal passes exactly when references point back in bounds and, at any two different places, references differ, transparent inputs differ in transaction or index, and notes differ in transaction, pool or index. |
| `ProposalRuns.ProposalRefusalsAreTruthful` | librustzcash/zcash_client_backend/src/proposal.rs:314-379 | Whatever error a proposal is refused with is true of it: the reference named is bad or used twice, or the output named is spent twice. |
| `ProposalRuns.ProposalConservesValue` | librustzcash/zcash_client_backend/src/proposal.rs:314-379 | Over every valid proposal, chain inputs equal fees plus the outputs no later step consumes. |
| `ProposalRuns.ProposalSpendsOnce` | librustzcash/zcash_client_backend/src/proposal.rs:314-379 | Over every valid proposal, references are strictly backward to outputs with a value, and no reference, transparent output or note is used at two places. |
| `ProposalRuns.ProposalDrainsOrchard` | librustzcash/zcash_client_backend/src/proposal.rs:769-812 | With Ironwood active, no step of a valid proposal pays into Orchard, and total Orchard change is at most the Orchard notes spent, strictly less if positive. |
| `ProposalWire.DecodeInputLists` | librustzcash/zcash_client_backend/src/proto.rs:882-976 | Pushing each wire input onto the list of its kind gives the specified three lists or the first error. |
| `ProposalWire.DecodeOneStep` | librustzcash/zcash_client_backend/src/proto.rs:853-1090 | Decoding a step part by part gives the specified step or the first error. |
| `ProposalWire.DecodeStepList` | librustzcash/zcash_client_backend/src/proto.rs:852-1091 | The loop building steps against earlier ones gives the specified list or the first error. |
| `ProposalWire.TryIntoStandardProposal` | librustzcash/zcash_client_backend/src/proto.rs:815-1136 | The whole decoder, in the order of its checks. |
| `ProposalWire.DecodedStepsAreBuilt` | librustzcash/zcash_client_backend/src/proto.rs:852-1091 | Every list of decoded steps consists of steps accepted against their predecessors, none anchored at height zero. |
| `ProposalWire.DecodedIsValid` | librustzcash/zcash_client_backend/src/proto.rs:815-1136 | Whatever message it came from, a decoded proposal is valid: it conserves value and spends nothing twice. |
| `ProposalMessages.DecodeStepIff` | librustzcash/zcash_client_backend/src/proto.rs:853-1090 | A step decodes exactly when its request, pools, inputs and balance can be read and the step they describe would be accepted, and to that step. |
| `ProposalMessages.LastPoolCounts` | librustzcash/zcash_client_backend/src/proto.rs:857-867 | A payment named more than once goes to the pool named last. |
| `ProposalMessages.DecodeInputsIff` | librustzcash/zcash_client_backend/src/proto.rs:882-976 | Inputs decode exactly when none is null, transaction identifiers have 32 bytes, pools are numbered one to four, and the wallet has the outputs. |
| `ProposalMessages.DecodeBalanceIff` | librustzcash/zcash_client_backend/src/proto.rs:981-1054 | A balance decodes exactly when its change is in range, to known pools, with readable memos only if shielded and ephemeral only if transparent, and all of it with the fee is in range. |
| `ProposalMessages.DecodeIff` | librustzcash/zcash_client_backend/src/proto.rs:815-1136 | A message decodes to a proposal exactly when it has version one and the ZIP 317 rule, describes its steps, policy, height and version, has a step, and uses nothing twice. |
| `ProposalRoundTrips.PoolRoundTrip` | librustzcash/zcash_client_backend/src/proto.rs:621-629 | Every pool identifier decodes to its pool. |
| `ProposalRoundTrips.InputsRoundTrip` | librustzcash/zcash_client_backend/src/proto.rs:669-811 | The flattened input list splits back into the three ordered lists it was made of. |
| `ProposalRoundTrips.BalanceRoundTrip` | librustzcash/zcash_client_backend/src/proto.rs:981-1054 | A balance is decoded from its encoding, with its cached total and dummy counts. |
| `ProposalRoundTrips.StepRoundTrip` | librustzcash/zcash_client_backend/src/proto.rs:669-811 | An accepted step is decoded from its encoding, against the same predecessors. |
| `ProposalRoundTrips.StepsRoundTrip` | librustzcash/zcash_client_backend/src/proto.rs:852-1091 | A series of accepted steps is decoded from its encodings, each step against those decoded before it. |
| `ProposalRoundTrips.ProposalRoundTrip` | librustzcash/zcash_client_backend/src/proto.rs:669-1136 | For every valid proposal and a database returning the same outputs, decoding the encoding gives an equal proposal exactly when no anchor height is zero and the version is absent, V5 or V6. |
| `ProposalRoundTrips.SingleStepRoundTrip` | librustzcash/zcash_client_backend/src/proposal.rs:400-434 | A proposal from `single_step`, which checks nothing across inputs, is decoded from its encoding exactly when its anchor is not height zero and it spends no output twice. |
| `ProposalRoundTrips.DecodedRoundTrips` | librustzcash/zcash_client_backend/src/proto.rs:669-1136 | For a database that returns what it is asked for, every decodable message decodes to a proposal whose encoding decodes to the same proposal. |
| `Fees.SplitCount` | librustzcash/zcash_client_backend/src/fees.rs:570-615 | The countdown returns the largest count up to the policy shortfall whose outputs the change pays for at the minimum, or one, with the minimum said by multiplication. |
| `Fees.MinimumOutputMeaning` | librustzcash/zcash_client_backend/src/fees.rs:587-597 | The derived minimum is m exactly when m times four times the target, capped, fits the existing total plus the change and m plus one does not; there is none exactly when the total is unknown or the sum out of range. |
| `Fees.SplitCountOnFields` | librustzcash/zcash_client_backend/src/fees.rs:570-615 | The count is the promised one, said by multiplication. |
| `Fees.SplitCountDetermined` | librustzcash/zcash_client_backend/src/fees.rs:570-615 | That description fits one number only; with a derived minimum and an existing total of zero it is the full shortfall, or one without a shortfall. |
| `Fees.FreshWalletSplitsFully` | librustzcash/zcash_client_backend/src/fees.rs:570-615 | With a derived minimum and nothing in the wallet, everything the policy wants is affordable. |
| `Fees.CountsMeaning` | librustzcash/zcash_client_backend/src/proposal.rs:935-977 | The counts are the numbers of notes, payments and change outputs of the pool. |
| `Fees.ActionCountCases` | librustzcash/zcash_client_backend/src/proposal.rs:1134-1146 | No action without need; else the least number that reaches the padding and, where spends and outputs share actions, both counts, or else their sum. |
| `Fees.PoolActionCounts` | librustzcash/zcash_client_backend/src/proposal.rs:1174-1200 | Orchard spends and outputs do not share actions, Ironwood ones do. |
| `Fees.PaddingReproducesCountIff` | librustzcash/zcash_client_backend/src/proposal.rs:1113-1146 | The padding read back reproduces the recorded action count exactly when that count covers spends and outputs and either fits eight bits or is forced by them. |
| `Fees.PaddingReconstruction` | librustzcash/zcash_client_backend/src/proposal.rs:1113-1146 | If the recorded dummies are the costed count minus real outputs, the rebuilt count equals the costed one for all counts and paddings. |
| `Fees.ExpiryFollowsPadding` | librustzcash/zcash_client_backend/src/proposal.rs:1087-1104 | A crossing costed unpadded is judged built as canonical, and one costed at default padding never is. |
| `Fees.CanonicalCrossingFee` | librustzcash/zcash_client_backend/src/fees.rs:230-244 | The canonical fee, by "Fee calculation" of ZIP 317, is three marginal fees. |
| `Fees.CanonicalCrossingIff` | librustzcash/zcash_client_backend/src/proposal.rs:1037-1104 | A step is canonical exactly when it spends one Orchard note and no Ironwood note, returns at most one change output, to Orchard, pays Ironwood once in a denomination, is anchored on the grid, and has the canonical fee; it is built as one if instead no Ironwood dummy was costed. |
| `Fees.Zip317FeeMeaning` | librustzcash/zcash_client_backend/src/fees.rs:222-244 | The fee is 5000 for each logical action, and 10000 for two or fewer. |
| `Fees.CanonicalCrossingShape` | librustzcash/zcash_client_backend/src/proposal.rs:1087-1131 | An accepted step judged built as canonical has two Orchard actions at default padding and one Ironwood action at its own. |
| `Fees.CanonicalCrossingHasNothingElse` | librustzcash/zcash_client_backend/src/fees.rs:213-244 | If its fee follows "Fee calculation" of ZIP 317, such a step has no Sapling or transparent part. |
| `Balances.Balance.CheckTotalAdding` | librustzcash/zcash_client_backend/src/data_api.rs:240-247 | The chained checked additions succeed exactly when the total plus the value is within the cap. |
| `Balances.Balance.AddSpendableValue` | librustzcash/zcash_client_backend/src/data_api.rs:265-269 | Adds to the spendable bucket and no other, or changes nothing when out of range; the unwrapped addition cannot fail. |
| `Balances.Balance.AddLockedValue` | librustzcash/zcash_client_backend/src/data_api.rs:272-276 | Adds to the locked bucket and no other, or changes nothing when out of range; the unwrapped addition cannot fail. |
| `Balances.Balance.AddPendingChangeValue` | librustzcash/zcash_client_backend/src/data_api.rs:285-289 | Adds to the pending change bucket and no other, or changes nothing when out of range; the unwrapped addition cannot fail. |
| `Balances.Balance.AddPendingSpendableValue` | librustzcash/zcash_client_backend/src/data_api.rs:299-303 | Adds to the pending spendability bucket and no other, or changes nothing when out of range; the unwrapped addition cannot fail. |
| `Balances.Balance.AddUneconomicValue` | librustzcash/zcash_client_backend/src/data_api.rs:312-315 | Adds to the uneconomic bucket and no other, or changes nothing when out of range; the unwrapped addition cannot fail. |
| `Balances.Balance.Add` | librustzcash/zcash_client_backend/src/data_api.rs:265-315 | Any bucket addition is one step of the specified run, and keeps a valid balance valid. |
| `Balances.Balance.AddAll` | librustzcash/zcash_client_backend/src/data_api.rs:265-315 | A series of additions is applied up to the first that fails, as specified. |
| `Balances.Balance.Total` | librustzcash/zcash_client_backend/src/data_api.rs:318-324 | On a valid balance the total exists, so that its expectation holds. |
| `Balances.RunRefinesUnbounded` | librustzcash/zcash_client_backend/src/data_api.rs:230-349 | Over every run of additions the balance stays valid and at most the unbounded run, and equals it exactly when the unbounded result is in range. |
| `Balances.AccountBalance.CheckTotal` | librustzcash/zcash_client_backend/src/data_api.rs:372-379 | The account total is found exactly when it is within the cap. |
| `Balances.AccountBalance.WithBalanceMut` | librustzcash/zcash_client_backend/src/data_api.rs:389-511 | For any callback over a balance: the one balance becomes what the callback leaves, then the total is checked, and no failure undoes the change. |
| `Balances.AccountRunWithinCap` | librustzcash/zcash_client_backend/src/data_api.rs:372-520 | Over every run in which all updates succeed, whatever their callbacks do, the account stays within the cap; every balance stays valid in any case. |
| `Balances.AppliedMeaning` | librustzcash/zcash_client_backend/src/data_api.rs:265-315 | A series of additions succeeds exactly when the unbounded result is in range, and then gives it. |
| `Balances.AdditionsAddUp` | librustzcash/zcash_client_backend/src/data_api.rs:372-520 | Over every run of additions in which all updates succeed, the account total is the sum of the values added, and within the cap. |
| `Balances.RejectedUpdatesMayBeKept` | librustzcash/zcash_client_backend/src/data_api.rs:389-511 | From within the cap, additions are rejected and yet kept exactly when all fit their balance but not the account, or something fits before the first that does not fit its balance. |
| `Balances.FullAccountKeepsRejectedUpdate` | librustzcash/zcash_client_backend/src/data_api.rs:389-511 | A concrete account at the cap that takes one more zatoshi, reports an error and is over the cap. |
| `Balances.RejectedUpdateMayBeKept` | librustzcash/zcash_client_backend/src/data_api.rs:389-511 | For one addition: it is rejected and yet kept exactly when it is not uneconomic, fits its own balance, and does not fit the account, which is then over the cap. |
| `Balances.PlusMeaning` | librustzcash/zcash_client_backend/src/data_api.rs:330-349 | Adding two balances is adding the buckets of one to the other, if that is in range. |
| `Balances.UnshieldedBalanceExistsIff` | librustzcash/zcash_client_backend/src/data_api.rs:330-349 | The sum that `unshielded_balance` expects exists exactly when the two uneconomic values fit the cap together. |
| `Balances.UnshieldedBalanceCanFail` | librustzcash/zcash_client_backend/src/data_api.rs:459-462 | Two successful updates can take any account within the cap to where that sum does not exist. |
| `SerdeArrays.VisitSeq` | librustzcash/pczt/src/serde_arrays.rs:28-56 | The element-by-element array reader takes exactly the first `n` bytes, or fails on fewer. |
| `SerdeArrays.ArraySelfDelimiting` | librustzcash/pczt/src/serde_arrays.rs:14-56 | For every length, reading stops where writing did, and no strict prefix is accepted. |
| `SerdeArrays.OptionSelfDelimiting` | librustzcash/pczt/src/serde_arrays.rs:79-96 | The same for optional values. |
| `SerdeArrays.VisitMap` | librustzcash/pczt/src/serde_arrays.rs:109-141 | The entry-by-entry map reader is the specified decoder. |
| `SerdeArrays.MapSelfDelimiting` | librustzcash/pczt/src/serde_arrays.rs:98-141 | For every array length and list of entries, decoding returns the inserted map and what follows, and rejects every strict prefix. |
| `SerdeArrays.InsertedLookup` | librustzcash/pczt/src/serde_arrays.rs:128-138 | After decoding, a repeated key holds the value of its last entry. |
| `SerdeArrays.MapRoundTrip` | librustzcash/pczt/src/serde_arrays.rs:98-141 | Decoding inverts encoding for every map, whatever order its entries are written in. |
| `SerdeArrays.OptionExact` | librustzcash/pczt/src/serde_arrays.rs:79-96 | Whatever is decoded as an optional value was encoded as it. |
| `SerdeArrays.MapExact` | librustzcash/pczt/src/serde_arrays.rs:98-141 | Whatever is decoded as a map was written as a list of entries, from which it holds the last values. |
| `SerdeArrays.SignatureMapRoundTrip` | librustzcash/pczt/src/serde_arrays.rs:98-141 | In particular the maps of a transparent input, from 33-byte keys to byte strings, with concrete codecs for counts and byte strings. |
| `Publisher.CheckDependencies` | scripts/publish-crates.py:80-104 | One package passes exactly when no dependency is forbidden, those in the release are earlier at the declared version, and those from git are pinned; the latter are collected. |
| `Publisher.ReleasePackages` | scripts/publish-crates.py:66-105 | A release is accepted exactly when all its packages pass, and the crates to be found upstream are exactly those taken from git. |
| `Publisher.ReleaseAcceptedIff` | scripts/publish-crates.py:66-105 | With distinct names, a release is accepted exactly when no package is withheld and every dependency is allowed, earlier at the required version if in the release, and pinned with "=" if taken from git. |
| `Publisher.DependencyIsEarlier` | scripts/publish-crates.py:93-98 | An accepted dependency on a crate of the release is an earlier package at that very version. |
| `Publisher.Release.Mark` | scripts/publish-crates.py:171-184 | A record changes its outcome only where the log justifies it. |
| `Publisher.Release.Save` | scripts/publish-crates.py:146-151 | A receipt write may raise; the outcome is recorded. |
| `Publisher.Release.Observe` | scripts/publish-crates.py:171-184 | The whole new state of the records: the status seen, previously-available for an available package, failed with an error for a yanked one or a registry error, an error if the receipt cannot be written. |
| `Publisher.Release.WaitForPublication` | scripts/publish-crates.py:126-134 | The polling loop succeeds exactly when some answer within its patience is Available and every earlier one Absent. |
| `Publisher.Release.Confirm` | scripts/publish-crates.py:257-263 | After an upload the record is uploaded-unconfirmed until the package was seen available, then published. |
| `Publisher.Release.TryPublish` | scripts/publish-crates.py:248-263 | Whatever fails, the record tells the handler whether the upload happened, except when the last receipt write fails. |
| `Publisher.Release.PublishOne` | scripts/publish-crates.py:238-268 | One round of the loop keeps every event justified and touches one record; on success the package was seen available and its record is previously-available or published, and a failed attempt leaves it uploaded-unconfirmed exactly if it was uploaded and not yet marked published, else failed. |
| `Publisher.Release.ObserveUpstream` | scripts/publish-crates.py:204-209 | Succeeds only if every upstream crate was seen available. |
| `Publisher.Release.ObserveAll` | scripts/publish-crates.py:210-213 | Observing the whole release uploads nothing. |
| `Publisher.Release.DryRun` | scripts/publish-crates.py:221-237 | A dry run uploads nothing, and succeeds exactly when both checkout checks, cargo and the receipt write do. |
| `Publisher.Release.Perform` | scripts/publish-crates.py:201-269 | The run once the receipt exists: nothing is uploaded before every upstream crate was seen available, or at all in plan or dry-run mode. |
| `Publisher.Release.PublishAll` | scripts/publish-crates.py:238-268 | On success every package was seen available in this run. |
| `Publisher.UploadFollowsDependencies` | scripts/publish-crates.py:238-268 | Each upload comes after all dependencies of the crate, at the declared versions, were seen available and the crate itself absent, directly follows a check that the checkout is unchanged, and is the only one of that crate. |
| `Publisher.FailureAfterUploadIff` | scripts/publish-crates.py:257-268 | A record once uploaded is never marked failed, exactly unless the receipt of its publication could not be written: then it is. |
| `Publisher.PublishedThenFailed` | scripts/publish-crates.py:257-268 | A concrete whole run of `run_release` in which a crate is uploaded, confirmed, and then marked failed. |
| `Publisher.RunRelease` | scripts/publish-crates.py:187-269 | Every run, whatever registry, cargo, checkout and disk do: it starts exactly when checkout, release order, output path and receipt are in order; uploads follow dependencies and, without a receipt, verification; nothing is uploaded in plan or dry-run mode, success means everything was seen available, and uploaded records are not marked failed if all writes succeed. |

## Left out

- Note encryption, commitments, nullifiers, proofs, signatures and address parsing: they are the
  uninterpreted functions of `Compaction.Derivations`, or not there at all.
- `into_parsed`, `serialize_from`, `extract_tx_data` and the signature hash: mappings onto protocol
  crates that are not part of this model.
- postcard, protobuf messages, ZIP 321 URIs and memo bytes: parameters that are asked to decode what
  they encoded (`Encoding.Postcard`, `ProposalWire.Env`). In `SerdeArrays` variable-length integers
  have no upper bound, and a map's entries may be written in any order.
- Field widths: byte strings of fixed length are byte sequences of any length, and counts and amounts
  are unbounded except where a bound is checked or a conversion can fail. A value sum in Sapling is an
  integer without the 128-bit range.
- Cargo features: the model has all of them on.
- `Fees.ActionCount`: the rule of the orchard crate for the number of actions, taken from the
  expectations recorded at librustzcash/zcash_client_backend/src/proposal.rs:2105-2254; its error for
  incompatible counts is not modelled, and a padding always has a floor.
- `Fees.CanonicalCrossingHasNothingElse`: takes the sizes of transparent inputs and outputs as given,
  positive where there are any.
- `Proposals.StepAcceptedIff`: overflow is reported as one kind of error for all totals, as in the
  source; which check reports first is in `FromParts`, not in this lemma.
- `ProposalRoundTrips.ProposalRoundTrip`: requires indices to fit 32 bits, because the encoder panics
  otherwise; the one standard fee rule is not a field.
- `Balances.AccountBalance.WithBalanceMut`: the callback's own result value is not modelled, only whether it
  succeeded and what it leaves in the balance.
- `Publisher.RunRelease`: manifests and workspace tables are already resolved into dependencies; crate
  names are distinct, as in any workspace; the receipt holds the package records only; the deadline of a wait is a number of polls; interrupts and
  malformed registry answers beyond those the script turns into its own error do not occur.
- `Compaction.CompactResolvableFields`: an action is updated as a value; the bundle's list of actions
  is an array updated in place.
- `validate_shielded_budget`, the wallet traits, trial decryption, Tor, proving keys, lightwalletd
  helpers and the remaining scripts: interfaces, input and output, or easy properties.
