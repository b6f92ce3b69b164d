/**
 The part of a PCZT whose merge is a total join theory: the globals and the transparent bundle.

 Here failure has no other cause than the absence of a common extension, so that combining is
 associative and independent of order with its failures included.
 */
module TransparentCombiner {
  import opened Wrappers
  import opened PartialJoin
  import opened Common
  import opened Transparent

  datatype Core = Core(global: Global, transparent: Bundle)

  function MergeCore(lhs: Core, rhs: Core): Option<Core> {
    var transparent := MergeBundle(lhs.transparent, rhs.transparent, lhs.global, rhs.global);
    var global := MergeGlobal(lhs.global, rhs.global);
    if transparent.Some? && global.Some? then Some(Core(global.value, transparent.value)) else None
  }

  predicate CoreLeq(a: Core, b: Core) {
    GlobalLeq(a.global, b.global) && BundleLeq(a.transparent, b.transparent, a.global)
  }

  lemma CoreUpper(a: Core, b: Core)
    requires MergeCore(a, b).Some?
    ensures CoreLeq(a, MergeCore(a, b).value) && CoreLeq(b, MergeCore(a, b).value)
  {
    GlobalUpper(a.global, b.global);
    BundleUpper(a.transparent, b.transparent, a.global, b.global);
  }

  lemma CoreLeast(a: Core, b: Core, u: Core)
    requires CoreLeq(a, u) && CoreLeq(b, u)
    ensures MergeCore(a, b).Some? && CoreLeq(MergeCore(a, b).value, u)
  {
    GlobalLeast(a.global, b.global, u.global);
    BundleLeast(a.transparent, b.transparent, u.transparent, a.global, b.global,
                MergeGlobal(a.global, b.global).value);
  }

  lemma CoreAntisymmetric(a: Core, b: Core)
    requires CoreLeq(a, b) && CoreLeq(b, a)
    ensures a == b
  {
    GlobalAntisymmetric(a.global, b.global);
    BundleAntisymmetric(a.transparent, b.transparent, a.global, b.global);
  }

  lemma CoreLaws()
    ensures FoldLaws(CoreLeq, MergeCore) && Bounded(CoreLeq, MergeCore)
  {
    forall a, b, c | CoreLeq(a, b) && CoreLeq(b, c) ensures CoreLeq(a, c) {
      GlobalTransitive(a.global, b.global, c.global);
      BundleTransitive(a.transparent, b.transparent, c.transparent, a.global, b.global);
    }
    forall a, b | MergeCore(a, b).Some?
      ensures CoreLeq(a, MergeCore(a, b).value) && CoreLeq(b, MergeCore(a, b).value)
    {
      CoreUpper(a, b);
    }
    forall a, b, u | CoreLeq(a, u) && CoreLeq(b, u)
      ensures MergeCore(a, b).Some? && CoreLeq(MergeCore(a, b).value, u)
    {
      CoreLeast(a, b, u);
    }
  }

  /** The merge is the least upper bound, and exists exactly when an upper bound does. */
  lemma CoreIsLeastUpperBound(a: Core, b: Core)
    ensures MergeCore(a, b).Some? <==> exists u :: CoreLeq(a, u) && CoreLeq(b, u)
    ensures forall m :: MergeCore(a, b) == Some(m) <==>
                        (CoreLeq(a, m) && CoreLeq(b, m) && forall u :: CoreLeq(a, u) && CoreLeq(b, u) ==> CoreLeq(m, u))
  {
    if MergeCore(a, b).Some? {
      CoreUpper(a, b);
    }
    forall u | CoreLeq(a, u) && CoreLeq(b, u)
      ensures MergeCore(a, b).Some? && CoreLeq(MergeCore(a, b).value, u)
    {
      CoreLeast(a, b, u);
    }
    forall m | CoreLeq(a, m) && CoreLeq(b, m) && forall u :: CoreLeq(a, u) && CoreLeq(b, u) ==> CoreLeq(m, u)
      ensures MergeCore(a, b) == Some(m)
    {
      CoreAntisymmetric(m, MergeCore(a, b).value);
    }
  }

  /** Associative, failures included. */
  lemma CoreAssociative(a: Core, b: Core, c: Core)
    ensures
      var left := var ab := MergeCore(a, b); if ab.Some? then MergeCore(ab.value, c) else None;
      var right := var bc := MergeCore(b, c); if bc.Some? then MergeCore(a, bc.value) else None;
      left == right
  {
    var ab, bc := MergeCore(a, b), MergeCore(b, c);
    var left := if ab.Some? then MergeCore(ab.value, c) else None;
    var right := if bc.Some? then MergeCore(a, bc.value) else None;
    assert left.Some? <==> right.Some? by {
      CoreLaws();
      GroupingAgrees(CoreLeq, MergeCore, a, b, c);
    }
    if left.Some? {
      assert CoreLeq(left.value, right.value) && CoreLeq(right.value, left.value) by {
        CoreLaws();
        GroupingAgrees(CoreLeq, MergeCore, a, b, c);
      }
      CoreAntisymmetric(left.value, right.value);
    }
  }

  /** Any order of the same copies gives the same outcome, failures included. */
  lemma CoreOrderIrrelevant(xs: seq<Core>, ys: seq<Core>)
    requires |xs| > 0 && multiset(xs) == multiset(ys)
    ensures |xs| == |ys| && FoldMerge(MergeCore, xs) == FoldMerge(MergeCore, ys)
  {
    SameLength(xs, ys);
    if |xs| == 1 {
      assert ys[0] in multiset(xs);
    } else {
      var x, y := FoldMerge(MergeCore, xs), FoldMerge(MergeCore, ys);
      CoreLaws();
      if x.Some? {
        FoldOrderAgrees(CoreLeq, MergeCore, xs, ys);
        CoreAntisymmetric(x.value, y.value);
      } else if y.Some? {
        FoldOrderAgrees(CoreLeq, MergeCore, ys, xs);
      }
    }
  }

  // ---------- When a merge succeeds, said without merging ----------

  /** A merge succeeds exactly when the headers match, the reserved bits are clear, every shorter
      list is on a modifiable side, and everything both sides hold agrees. */
  lemma CoreSucceedsIff(a: Core, b: Core)
    ensures MergeCore(a, b).Some? <==>
            && a.global.SameTransaction(b.global)
            && a.global.ReservedBitsClear() && b.global.ReservedBitsClear()
            && MapsAgree(a.global.proprietary, b.global.proprietary)
            && (|a.transparent.inputs| < |b.transparent.inputs| ==> a.global.txModifiable & 0x01 != 0)
            && (|a.transparent.inputs| > |b.transparent.inputs| ==> b.global.txModifiable & 0x01 != 0)
            && (|a.transparent.outputs| < |b.transparent.outputs| ==> a.global.txModifiable & 0x02 != 0)
            && (|a.transparent.outputs| > |b.transparent.outputs| ==> b.global.txModifiable & 0x02 != 0)
            && OverlapsAgree(InputsAgree, a.transparent.inputs, b.transparent.inputs)
            && OverlapsAgree(OutputsAgree, a.transparent.outputs, b.transparent.outputs)
  {
    BundleSucceedsIff(a.transparent, b.transparent, a.global, b.global);
  }
}
