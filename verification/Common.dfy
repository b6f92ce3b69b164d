/** The fields of a PCZT that concern the transaction as a whole, and how two copies of them merge. */
module Common {
  import opened Wrappers
  import opened PartialJoin

  newtype byte = b: int | 0 <= b < 256
  type Bytes = seq<byte>
  type Proprietary = map<string, Bytes>

  function Zeros(n: nat): Bytes {
    if n == 0 then [] else [0] + Zeros(n - 1)
  }

  /** The all-zero anchor that stands in for a missing one. */
  function DefaultAnchor(): Bytes {
    Zeros(32)
  }

  const FLAG_TRANSPARENT_INPUTS_MODIFIABLE: bv8 := 0x01
  const FLAG_TRANSPARENT_OUTPUTS_MODIFIABLE: bv8 := 0x02
  const FLAG_HAS_SIGHASH_SINGLE: bv8 := 0x04
  const FLAG_SHIELDED_MODIFIABLE: bv8 := 0x80

  const V6_TX_VERSION: nat := 6

  datatype Zip32Derivation = Zip32Derivation(seedFingerprint: Bytes, derivationPath: seq<nat>)

  datatype Global = Global(
    txVersion: nat,
    versionGroupId: nat,
    consensusBranchId: nat,
    fallbackLockTime: Option<nat>,
    expiryHeight: nat,
    coinType: nat,
    txModifiable: bv8,
    proprietary: Proprietary)
  {
    predicate InputsModifiable() {
      txModifiable & FLAG_TRANSPARENT_INPUTS_MODIFIABLE != 0
    }

    predicate OutputsModifiable() {
      txModifiable & FLAG_TRANSPARENT_OUTPUTS_MODIFIABLE != 0
    }

    predicate HasSighashSingle() {
      txModifiable & FLAG_HAS_SIGHASH_SINGLE != 0
    }

    predicate ShieldedModifiable() {
      txModifiable & FLAG_SHIELDED_MODIFIABLE != 0
    }

    /** Bits 3 to 6 must be zero. */
    predicate ReservedBitsClear() {
      txModifiable & 0x78 == 0
    }

    predicate SameTransaction(other: Global) {
      && txVersion == other.txVersion
      && versionGroupId == other.versionGroupId
      && consensusBranchId == other.consensusBranchId
      && fallbackLockTime == other.fallbackLockTime
      && expiryHeight == other.expiryHeight
      && coinType == other.coinType
    }
  }

  /** `a` can become `b`: permissions are only given up, the SIGHASH_SINGLE mark is only set, and
      proprietary entries are only added. */
  predicate GlobalLeq(a: Global, b: Global) {
    && a.SameTransaction(b)
    && a.ReservedBitsClear() && b.ReservedBitsClear()
    && (b.InputsModifiable() ==> a.InputsModifiable())
    && (b.OutputsModifiable() ==> a.OutputsModifiable())
    && (a.HasSighashSingle() ==> b.HasSighashSingle())
    && (b.ShieldedModifiable() ==> a.ShieldedModifiable())
    && MapLeq(a.proprietary, b.proprietary)
  }

  /** Bits 0, 1 and 7 of the merged field are the conjunction of the two sides, bit 2 the disjunction. */
  function JoinFlags(a: bv8, b: bv8): bv8 {
    (a & b & 0x83) | ((a | b) & 0x04)
  }

  function MergeGlobal(a: Global, b: Global): Option<Global> {
    if !a.SameTransaction(b) || !a.ReservedBitsClear() || !b.ReservedBitsClear() then None
    else
      var proprietary :- MergeMap(a.proprietary, b.proprietary);
      Some(a.(txModifiable := JoinFlags(a.txModifiable, b.txModifiable), proprietary := proprietary))
  }

  /** `Global::merge`, editing the bit field one flag at a time. */
  method MergeGlobalInPlace(self: Global, other: Global) returns (r: Option<Global>)
    ensures r == MergeGlobal(self, other)
  {
    if || self.txVersion != other.txVersion
       || self.versionGroupId != other.versionGroupId
       || self.consensusBranchId != other.consensusBranchId
       || self.fallbackLockTime != other.fallbackLockTime
       || self.expiryHeight != other.expiryHeight
       || self.coinType != other.coinType
    {
      return None;
    }
    var flags := self.txModifiable;
    if other.txModifiable & FLAG_TRANSPARENT_INPUTS_MODIFIABLE == 0 {
      flags := flags & !FLAG_TRANSPARENT_INPUTS_MODIFIABLE;
    }
    if other.txModifiable & FLAG_TRANSPARENT_OUTPUTS_MODIFIABLE == 0 {
      flags := flags & !FLAG_TRANSPARENT_OUTPUTS_MODIFIABLE;
    }
    if other.txModifiable & FLAG_HAS_SIGHASH_SINGLE != 0 {
      flags := flags | FLAG_HAS_SIGHASH_SINGLE;
    }
    if (flags & !FLAG_SHIELDED_MODIFIABLE) >> 3 != 0
       || (other.txModifiable & !FLAG_SHIELDED_MODIFIABLE) >> 3 != 0
    {
      return None;
    }
    if other.txModifiable & FLAG_SHIELDED_MODIFIABLE == 0 {
      flags := flags & !FLAG_SHIELDED_MODIFIABLE;
    }
    var proprietary := MergeMapInto(self.proprietary, other.proprietary);
    if proprietary.None? {
      return None;
    }
    return Some(self.(txModifiable := flags, proprietary := proprietary.value));
  }

  lemma GlobalUpper(a: Global, b: Global)
    requires MergeGlobal(a, b).Some?
    ensures GlobalLeq(a, MergeGlobal(a, b).value)
    ensures GlobalLeq(b, MergeGlobal(a, b).value)
    ensures MergeGlobal(a, b).value.InputsModifiable() <==> a.InputsModifiable() && b.InputsModifiable()
    ensures MergeGlobal(a, b).value.OutputsModifiable() <==> a.OutputsModifiable() && b.OutputsModifiable()
    ensures MergeGlobal(a, b).value.ShieldedModifiable() <==> a.ShieldedModifiable() && b.ShieldedModifiable()
  {
  }

  lemma GlobalLeast(a: Global, b: Global, u: Global)
    requires GlobalLeq(a, u) && GlobalLeq(b, u)
    ensures MergeGlobal(a, b).Some?
    ensures GlobalLeq(MergeGlobal(a, b).value, u)
  {
  }

  lemma GlobalTransitive(a: Global, b: Global, c: Global)
    requires GlobalLeq(a, b) && GlobalLeq(b, c)
    ensures GlobalLeq(a, c)
  {
  }

  lemma GlobalAntisymmetric(a: Global, b: Global)
    requires GlobalLeq(a, b) && GlobalLeq(b, a)
    ensures a == b
  {
    FlagsExtensional(a.txModifiable, b.txModifiable);
    assert a.proprietary == b.proprietary;
  }

  lemma FlagsExtensional(x: bv8, y: bv8)
    requires x & 0x78 == 0 && y & 0x78 == 0
    requires x & 0x01 != 0 <==> y & 0x01 != 0
    requires x & 0x02 != 0 <==> y & 0x02 != 0
    requires x & 0x04 != 0 <==> y & 0x04 != 0
    requires x & 0x80 != 0 <==> y & 0x80 != 0
    ensures x == y
  {
  }

  predicate GlobalsAgree(a: Global, b: Global) {
    && a.SameTransaction(b)
    && a.ReservedBitsClear() && b.ReservedBitsClear()
    && MapsAgree(a.proprietary, b.proprietary)
  }

  lemma GlobalCommutes(a: Global, b: Global)
    ensures MergeGlobal(a, b) == MergeGlobal(b, a)
  {
    if MergeGlobal(a, b).Some? {
      assert a.proprietary + b.proprietary == b.proprietary + a.proprietary;
    }
  }
}
