/**
 The two wire versions of a PCZT, the serializer that picks the smaller version that fits, and
 the parser that undoes either.

 The byte format of a wire structure is a library's business: `Postcard` stands for it, and is
 only asked to decode what it encoded.
 */
module Encoding {
  import opened Wrappers
  import opened PartialJoin
  import opened Common
  import opened Combiner
  import opened Memos
  import T = Transparent
  import S = Sapling
  import O = Orchard

  datatype EncodingError = UnsupportedTxVersion | UnsupportedOrchardNoteVersion | RequiresV2

  datatype ParseError =
    | NotPczt
    | Invalid
    | MissingRequiredField(name: string)
    | TooShort
    | UnknownVersion(version: nat)

  // ---------- Version 1 ----------

  datatype V1Sapling = V1Sapling(
    spends: seq<S.Spend>, outputs: seq<S.Output>, valueSum: int, anchor: Bytes, bsk: Option<Bytes>)

  datatype V1Output = V1Output(
    cmx: Bytes,
    ephemeralKey: Bytes,
    encCiphertext: Bytes,
    outCiphertext: Bytes,
    recipient: Option<Bytes>,
    value: Option<nat>,
    rseed: Option<Bytes>,
    ock: Option<Bytes>,
    zip32Derivation: Option<Zip32Derivation>,
    userAddress: Option<string>,
    proprietary: Proprietary)

  datatype V1Action = V1Action(cvNet: Bytes, spend: O.Spend, output: V1Output, rcv: Option<Bytes>)

  datatype V1Orchard = V1Orchard(
    actions: seq<V1Action>,
    flags: byte,
    valueSum: O.ValueSum,
    anchor: Bytes,
    zkproof: Option<Bytes>,
    bsk: Option<Bytes>)

  datatype V1Pczt = V1Pczt(global: Global, transparent: T.Bundle, sapling: V1Sapling, orchard: V1Orchard)

  function SaplingToV1(b: S.Bundle): Result<V1Sapling, EncodingError> {
    if b.anchor.None? && b.spends != [] then Err(RequiresV2)
    else Ok(V1Sapling(b.spends, b.outputs, b.valueSum, b.anchor.UnwrapOr(DefaultAnchor()), b.bsk))
  }

  function SaplingFromV1(b: V1Sapling): S.Bundle {
    S.Bundle(b.spends, b.outputs, b.valueSum, Some(b.anchor), b.bsk)
  }

  function ActionToV1(a: O.Action): Result<V1Action, EncodingError> {
    if a.cvNet.None? || !a.output.encCiphertext.Encrypted? || a.output.cmx.None? then Err(RequiresV2)
    else
      var o := a.output;
      Ok(V1Action(
        a.cvNet.value, a.spend,
        V1Output(o.cmx.value, o.ephemeralKey, o.encCiphertext.ciphertext, o.outCiphertext, o.recipient, o.value,
                 o.rseed, o.ock, o.zip32Derivation, o.userAddress, o.proprietary),
        a.rcv))
  }

  function ActionFromV1(a: V1Action): O.Action {
    var o := a.output;
    O.Action(
      Some(a.cvNet), a.spend,
      O.Output(Some(o.cmx), o.ephemeralKey, O.Encrypted(o.encCiphertext), o.outCiphertext, o.recipient, o.value,
               o.rseed, o.ock, o.zip32Derivation, o.userAddress, o.proprietary),
      a.rcv)
  }

  function ActionsToV1(actions: seq<O.Action>): Result<seq<V1Action>, EncodingError> {
    if actions == [] then Ok([])
    else
      var head :- ActionToV1(actions[0]);
      var tail :- ActionsToV1(actions[1..]);
      Ok([head] + tail)
  }

  function ActionsFromV1(actions: seq<V1Action>): seq<O.Action> {
    seq(|actions|, i requires 0 <= i < |actions| => ActionFromV1(actions[i]))
  }

  function OrchardToV1(b: O.Bundle): Result<V1Orchard, EncodingError> {
    if b.noteVersion != O.V2 then Err(UnsupportedOrchardNoteVersion)
    else if b.anchor.None? && b.actions != [] then Err(RequiresV2)
    else
      var actions :- ActionsToV1(b.actions);
      Ok(V1Orchard(actions, b.flags, b.valueSum, b.anchor.UnwrapOr(DefaultAnchor()), b.zkproof, b.bsk))
  }

  /** Unlike its Sapling sibling, this undoes the placeholder anchor of an empty bundle. */
  function OrchardFromV1(b: V1Orchard): O.Bundle {
    var anchor := if b.actions == [] && b.anchor == DefaultAnchor() then None else Some(b.anchor);
    O.Bundle(ActionsFromV1(b.actions), b.flags, b.valueSum, anchor, O.V2, b.zkproof, b.bsk)
  }

  function ToV1(p: Pczt): Result<V1Pczt, EncodingError> {
    if p.global.txVersion == V6_TX_VERSION || p.ironwood != O.EMPTY_IRONWOOD then Err(UnsupportedTxVersion)
    else
      var sapling :- SaplingToV1(p.sapling);
      var orchard :- OrchardToV1(p.orchard);
      Ok(V1Pczt(p.global, p.transparent, sapling, orchard))
  }

  function FromV1(p: V1Pczt): Pczt {
    Pczt(p.global, p.transparent, SaplingFromV1(p.sapling), OrchardFromV1(p.orchard), O.EMPTY_IRONWOOD)
  }

  // ---------- Version 2 ----------

  datatype V2Spend = V2Spend(
    nullifier: Option<Bytes>,
    rk: Option<Bytes>,
    spendAuthSig: Option<Bytes>,
    recipient: Option<Bytes>,
    value: Option<nat>,
    rho: Option<Bytes>,
    rseed: Option<Bytes>,
    fvk: Option<Bytes>,
    witnessPath: Option<(nat, seq<Bytes>)>,
    alpha: Option<Bytes>,
    zip32Derivation: Option<Zip32Derivation>,
    dummySk: Option<Bytes>,
    proprietary: Proprietary)

  /** A memo on the wire is any byte string until deserializing has checked it. */
  datatype V2Ciphertext = V2Encrypted(ciphertext: Bytes) | V2MemoPlaintext(bytes: Bytes)

  datatype V2Output = V2Output(
    cmx: Option<Bytes>,
    ephemeralKey: Bytes,
    encCiphertext: V2Ciphertext,
    outCiphertext: Bytes,
    recipient: Option<Bytes>,
    value: Option<nat>,
    rseed: Option<Bytes>,
    ock: Option<Bytes>,
    zip32Derivation: Option<Zip32Derivation>,
    userAddress: Option<string>,
    proprietary: Proprietary)

  datatype V2Action = V2Action(cvNet: Option<Bytes>, spend: V2Spend, output: V2Output, rcv: Option<Bytes>)

  datatype V2Orchard = V2Orchard(
    actions: seq<V2Action>,
    flags: byte,
    valueSum: O.ValueSum,
    anchor: Option<Bytes>,
    noteVersion: O.NoteVersion,
    zkproof: Option<Bytes>,
    bsk: Option<Bytes>)

  datatype V2Pczt = V2Pczt(
    global: Global,
    transparent: Option<T.Bundle>,
    sapling: Option<S.Bundle>,
    orchard: Option<V2Orchard>,
    ironwood: Option<V2Orchard>)

  function SpendToV2(s: O.Spend): V2Spend {
    V2Spend(Some(s.nullifier), Some(s.rk), s.spendAuthSig, s.recipient, s.value, s.rho, s.rseed, s.fvk,
            s.witnessPath, s.alpha, s.zip32Derivation, s.dummySk, s.proprietary)
  }

  function SpendFromV2(s: V2Spend): Result<O.Spend, ParseError> {
    if s.nullifier.None? then Err(MissingRequiredField("orchard.actions[].spend.nullifier"))
    else if s.rk.None? then Err(MissingRequiredField("orchard.actions[].spend.rk"))
    else
      Ok(O.Spend(s.nullifier.value, s.rk.value, s.spendAuthSig, s.recipient, s.value, s.rho, s.rseed, s.fvk,
                 s.witnessPath, s.alpha, s.zip32Derivation, s.dummySk, s.proprietary))
  }

  /** The check that `Deserialize for MemoPlaintext` makes. */
  predicate MemoAccepted(o: V2Output) {
    o.encCiphertext.V2MemoPlaintext? ==> FromStrippedBytes(o.encCiphertext.bytes).Ok?
  }

  function OutputToV2(o: O.Output): V2Output {
    var encCiphertext :=
      match o.encCiphertext
      case Encrypted(ciphertext) => V2Encrypted(ciphertext)
      case MemoPlaintext(stripped) => V2MemoPlaintext(stripped);
    V2Output(o.cmx, o.ephemeralKey, encCiphertext, o.outCiphertext, o.recipient, o.value, o.rseed, o.ock,
             o.zip32Derivation, o.userAddress, o.proprietary)
  }

  function OutputFromV2(o: V2Output): O.Output
    requires MemoAccepted(o)
  {
    var encCiphertext :=
      match o.encCiphertext
      case V2Encrypted(ciphertext) => O.Encrypted(ciphertext)
      case V2MemoPlaintext(bytes) => O.MemoPlaintext(FromStrippedBytes(bytes).value);
    O.Output(o.cmx, o.ephemeralKey, encCiphertext, o.outCiphertext, o.recipient, o.value, o.rseed, o.ock,
             o.zip32Derivation, o.userAddress, o.proprietary)
  }

  function ActionToV2(a: O.Action): V2Action {
    V2Action(a.cvNet, SpendToV2(a.spend), OutputToV2(a.output), a.rcv)
  }

  function ActionFromV2(a: V2Action): Result<O.Action, ParseError>
    requires MemoAccepted(a.output)
  {
    var spend :- SpendFromV2(a.spend);
    Ok(O.Action(a.cvNet, spend, OutputFromV2(a.output), a.rcv))
  }

  predicate ActionMemosAccepted(actions: seq<V2Action>) {
    forall i :: 0 <= i < |actions| ==> MemoAccepted(actions[i].output)
  }

  function ActionsToV2(actions: seq<O.Action>): (r: seq<V2Action>)
    ensures ActionMemosAccepted(r)
  {
    seq(|actions|, i requires 0 <= i < |actions| => ActionToV2(actions[i]))
  }

  function ActionsFromV2(actions: seq<V2Action>): Result<seq<O.Action>, ParseError>
    requires ActionMemosAccepted(actions)
  {
    if actions == [] then Ok([])
    else
      var head :- ActionFromV2(actions[0]);
      var tail :- ActionsFromV2(actions[1..]);
      Ok([head] + tail)
  }

  function OrchardToV2(b: O.Bundle): (r: V2Orchard)
    ensures ActionMemosAccepted(r.actions)
  {
    V2Orchard(ActionsToV2(b.actions), b.flags, b.valueSum, b.anchor, b.noteVersion, b.zkproof, b.bsk)
  }

  function OrchardFromV2(b: V2Orchard): Result<O.Bundle, ParseError>
    requires ActionMemosAccepted(b.actions)
  {
    var actions :- ActionsFromV2(b.actions);
    Ok(O.Bundle(actions, b.flags, b.valueSum, b.anchor, b.noteVersion, b.zkproof, b.bsk))
  }

  function DropDefault(anchor: Option<Bytes>): Option<Bytes> {
    if anchor == Some(DefaultAnchor()) then None else anchor
  }

  /** A bundle equal to the empty one, possibly but for an all-zero anchor, is omitted. */
  predicate OrchardOmitted(b: O.Bundle, empty: O.Bundle) {
    b.(anchor := DropDefault(b.anchor)) == empty
  }

  predicate SaplingOmitted(b: S.Bundle) {
    b.(anchor := DropDefault(b.anchor)) == S.EMPTY_BUNDLE
  }

  /** Every memo in the structure passes the check of deserializing. */
  predicate MemosAccepted(p: V2Pczt) {
    && (p.orchard.Some? ==> ActionMemosAccepted(p.orchard.value.actions))
    && (p.ironwood.Some? ==> ActionMemosAccepted(p.ironwood.value.actions))
  }

  function ToV2(p: Pczt): (r: V2Pczt)
    ensures MemosAccepted(r)
  {
    V2Pczt(
      p.global,
      if p.transparent == T.EMPTY_BUNDLE then None else Some(p.transparent),
      if SaplingOmitted(p.sapling) then None else Some(p.sapling),
      if OrchardOmitted(p.orchard, O.EMPTY_ORCHARD) then None else Some(OrchardToV2(p.orchard)),
      if OrchardOmitted(p.ironwood, O.EMPTY_IRONWOOD) then None else Some(OrchardToV2(p.ironwood)))
  }

  function SlotFromV2(b: Option<V2Orchard>, empty: O.Bundle): Result<O.Bundle, ParseError>
    requires b.Some? ==> ActionMemosAccepted(b.value.actions)
  {
    if b.None? then Ok(empty) else OrchardFromV2(b.value)
  }

  function FromV2(p: V2Pczt): Result<Pczt, ParseError>
    requires MemosAccepted(p)
  {
    var orchard :- SlotFromV2(p.orchard, O.EMPTY_ORCHARD);
    var ironwood :- SlotFromV2(p.ironwood, O.EMPTY_IRONWOOD);
    Ok(Pczt(p.global, p.transparent.UnwrapOr(T.EMPTY_BUNDLE), p.sapling.UnwrapOr(S.EMPTY_BUNDLE), orchard, ironwood))
  }

  // ---------- Bytes ----------

  const MAGIC_BYTES: Bytes := [80, 67, 90, 84]
  const PCZT_VERSION_1: nat := 1
  const PCZT_VERSION_2: nat := 2
  const VERSIONED_HEADER_LEN := 8

  function ToLe32(v: nat): Bytes
    requires v < 0x1_0000_0000
  {
    var (v1, v2, v3) := (v / 256, v / 256 / 256, v / 256 / 256 / 256);
    [(v % 256) as byte, (v1 % 256) as byte, (v2 % 256) as byte, v3 as byte]
  }

  function FromLe32(b: Bytes): nat
    requires |b| == 4
  {
    b[0] as nat + 256 * (b[1] as nat + 256 * (b[2] as nat + 256 * b[3] as nat))
  }

  lemma Le32RoundTrip(v: nat)
    requires v < 0x1_0000_0000
    ensures |ToLe32(v)| == 4 && FromLe32(ToLe32(v)) == v
  {
  }

  datatype HeaderError = InvalidMagic | HeaderTooShort

  function SerializeHeader(version: nat): Bytes
    requires version < 0x1_0000_0000
  {
    MAGIC_BYTES + ToLe32(version)
  }

  function ParseHeader(bytes: Bytes): Result<(nat, Bytes), HeaderError> {
    if |bytes| < VERSIONED_HEADER_LEN then Err(HeaderTooShort)
    else if bytes[..4] != MAGIC_BYTES then Err(InvalidMagic)
    else Ok((FromLe32(bytes[4..8]), bytes[VERSIONED_HEADER_LEN..]))
  }

  lemma HeaderRoundTrip(version: nat, body: Bytes)
    requires version < 0x1_0000_0000
    ensures ParseHeader(SerializeHeader(version) + body) == Ok((version, body))
  {
    hide ToLe32, FromLe32;
    Le32RoundTrip(version);
    var bytes := SerializeHeader(version) + body;
    assert bytes[..4] == MAGIC_BYTES;
    assert bytes[4..8] == ToLe32(version);
    assert bytes[8..] == body;
  }

  /** The codec of the wire structures. */
  datatype Postcard = Postcard(
    encode1: V1Pczt -> Bytes,
    decode1: Bytes -> Option<V1Pczt>,
    encode2: V2Pczt -> Bytes,
    decode2: Bytes -> Option<V2Pczt>)
  {
    ghost predicate Faithful() {
      && (forall p :: decode1(encode1(p)) == Some(p))
      && (forall p :: decode2(encode2(p)) == Some(p))
    }
  }

  function SerializeV1(codec: Postcard, p: V1Pczt): Bytes {
    SerializeHeader(PCZT_VERSION_1) + codec.encode1(p)
  }

  function SerializeV2(codec: Postcard, p: V2Pczt): Bytes {
    SerializeHeader(PCZT_VERSION_2) + codec.encode2(p)
  }

  /** `Pczt::serialize`: version 1 whenever it can represent the PCZT, and version 2 otherwise. */
  function Serialize(codec: Postcard, p: Pczt): Result<Bytes, EncodingError> {
    if p.global.txVersion != V6_TX_VERSION && p.ironwood == O.EMPTY_IRONWOOD && ToV1(p).Ok?
    then Ok(SerializeV1(codec, ToV1(p).value))
    else Ok(SerializeV2(codec, ToV2(p)))
  }

  /** `Pczt::parse`. */
  function Parse(codec: Postcard, bytes: Bytes): Result<Pczt, ParseError> {
    match ParseHeader(bytes)
    case Err(HeaderTooShort) => Err(TooShort)
    case Err(InvalidMagic) => Err(NotPczt)
    case Ok((version, body)) =>
      if version == PCZT_VERSION_1 then
        match codec.decode1(body)
        case None => Err(Invalid)
        case Some(p) => Ok(FromV1(p))
      else if version == PCZT_VERSION_2 then
        match codec.decode2(body)
        case None => Err(Invalid)
        case Some(p) => if MemosAccepted(p) then FromV2(p) else Err(Invalid)
      else Err(UnknownVersion(version))
  }

  // ---------- What version 1 can represent ----------

  predicate ActionComplete(a: O.Action) {
    a.cvNet.Some? && a.output.cmx.Some? && a.output.encCiphertext.Encrypted?
  }

  predicate V1Representable(p: Pczt) {
    && p.global.txVersion != V6_TX_VERSION
    && p.ironwood == O.EMPTY_IRONWOOD
    && (p.sapling.anchor.Some? || p.sapling.spends == [])
    && p.orchard.noteVersion == O.V2
    && (p.orchard.anchor.Some? || p.orchard.actions == [])
    && forall i :: 0 <= i < |p.orchard.actions| ==> ActionComplete(p.orchard.actions[i])
  }

  lemma {:induction false} ActionsToV1Iff(actions: seq<O.Action>)
    ensures ActionsToV1(actions).Ok? <==> forall i :: 0 <= i < |actions| ==> ActionComplete(actions[i])
  {
    if actions != [] {
      ActionsToV1Iff(actions[1..]);
      if ActionsToV1(actions).Ok? {
        forall i | 0 <= i < |actions| ensures ActionComplete(actions[i]) {
          if i > 0 {
            assert actions[i] == actions[1..][i - 1];
          }
        }
      }
    }
  }

  lemma {:induction false} ActionsV1RoundTrip(actions: seq<O.Action>)
    requires ActionsToV1(actions).Ok?
    ensures |ActionsToV1(actions).value| == |actions|
    ensures ActionsFromV1(ActionsToV1(actions).value) == actions
  {
    if actions != [] {
      ActionsV1RoundTrip(actions[1..]);
      var head, tail := ActionToV1(actions[0]).value, ActionsToV1(actions[1..]).value;
      assert ActionsFromV1([head] + tail) == [ActionFromV1(head)] + ActionsFromV1(tail);
    }
  }

  lemma {:induction false} ActionsV2RoundTrip(actions: seq<O.Action>)
    ensures ActionMemosAccepted(ActionsToV2(actions)) && ActionsFromV2(ActionsToV2(actions)) == Ok(actions)
  {
    if actions != [] {
      ActionsV2RoundTrip(actions[1..]);
      assert ActionsToV2(actions)[1..] == ActionsToV2(actions[1..]);
      assert actions == [actions[0]] + actions[1..];
    }
  }

  // ---------- Anchors of bundles with nothing to anchor ----------

  function NormalSapling(b: S.Bundle): S.Bundle {
    if b.spends == [] then b.(anchor := DropDefault(b.anchor)) else b
  }

  function NormalOrchard(b: O.Bundle): O.Bundle {
    if b.actions == [] then b.(anchor := DropDefault(b.anchor)) else b
  }

  /** An all-zero anchor of a bundle with no spends or actions, read as absent. */
  function Normal(p: Pczt): Pczt {
    p.(sapling := NormalSapling(p.sapling), orchard := NormalOrchard(p.orchard),
       ironwood := NormalOrchard(p.ironwood))
  }

  /** Equal up to absent and all-zero anchors of bundles with no spends or actions. */
  predicate SameUpToAnchors(p: Pczt, q: Pczt) {
    Normal(p) == Normal(q)
  }

  lemma ThroughV1(p: Pczt)
    requires ToV1(p).Ok?
    ensures SameUpToAnchors(FromV1(ToV1(p).value), p)
    ensures ToV1(FromV1(ToV1(p).value)) == ToV1(p)
  {
    ActionsV1RoundTrip(p.orchard.actions);
  }

  lemma ThroughV2(p: Pczt)
    ensures FromV2(ToV2(p)).Ok?
    ensures SameUpToAnchors(FromV2(ToV2(p)).value, p)
    ensures FromV2(ToV2(p)).value.global == p.global
    ensures ToV2(FromV2(ToV2(p)).value) == ToV2(p)
  {
    ActionsV2RoundTrip(p.orchard.actions);
    ActionsV2RoundTrip(p.ironwood.actions);
  }

  /** Serializing always succeeds, in version 1 exactly when version 1 can represent the PCZT. */
  lemma SerializePicksMinimal(codec: Postcard, p: Pczt)
    ensures Serialize(codec, p).Ok?
    ensures ParseHeader(Serialize(codec, p).value).Ok?
    ensures ParseHeader(Serialize(codec, p).value).value.0 ==
            if V1Representable(p) then PCZT_VERSION_1 else PCZT_VERSION_2
    ensures ToV1(p).Ok? <==> V1Representable(p)
  {
    ActionsToV1Iff(p.orchard.actions);
    if ToV1(p).Ok? {
      HeaderRoundTrip(PCZT_VERSION_1, codec.encode1(ToV1(p).value));
    } else {
      HeaderRoundTrip(PCZT_VERSION_2, codec.encode2(ToV2(p)));
    }
  }

  /** Parsing what was serialized gives the PCZT back, up to those anchors. */
  lemma ParseInvertsSerialize(codec: Postcard, p: Pczt)
    requires codec.Faithful()
    ensures Serialize(codec, p).Ok?
    ensures Parse(codec, Serialize(codec, p).value).Ok?
    ensures SameUpToAnchors(Parse(codec, Serialize(codec, p).value).value, p)
    ensures Parse(codec, Serialize(codec, p).value) ==
            if ToV1(p).Ok? then Ok(FromV1(ToV1(p).value)) else FromV2(ToV2(p))
  {
    SerializePicksMinimal(codec, p);
    if ToV1(p).Ok? {
      HeaderRoundTrip(PCZT_VERSION_1, codec.encode1(ToV1(p).value));
      ThroughV1(p);
    } else {
      HeaderRoundTrip(PCZT_VERSION_2, codec.encode2(ToV2(p)));
      ThroughV2(p);
    }
  }

  lemma {:induction false} MissingFieldsOnly(actions: seq<V2Action>)
    requires ActionMemosAccepted(actions) && ActionsFromV2(actions).Err?
    ensures ActionsFromV2(actions).error.MissingRequiredField?
  {
    if ActionFromV2(actions[0]).Ok? {
      MissingFieldsOnly(actions[1..]);
    }
  }

  /** A version 2 structure is refused as invalid exactly when one of its memos is too long or not
      stripped; what the serializer writes never is. */
  lemma ParserChecksMemos(codec: Postcard, q: V2Pczt)
    requires codec.Faithful()
    ensures Parse(codec, SerializeV2(codec, q)) == Err(Invalid) <==> !MemosAccepted(q)
  {
    HeaderRoundTrip(PCZT_VERSION_2, codec.encode2(q));
    if MemosAccepted(q) {
      if q.orchard.Some? && ActionsFromV2(q.orchard.value.actions).Err? {
        MissingFieldsOnly(q.orchard.value.actions);
      }
      if q.ironwood.Some? && ActionsFromV2(q.ironwood.value.actions).Err? {
        MissingFieldsOnly(q.ironwood.value.actions);
      }
    }
  }

  // ---------- Which bytes are accepted ----------

  predicate FieldsPresent(actions: seq<V2Action>) {
    forall i :: 0 <= i < |actions| ==> actions[i].spend.nullifier.Some? && actions[i].spend.rk.Some?
  }

  lemma {:induction false} ActionsFromV2Iff(actions: seq<V2Action>)
    requires ActionMemosAccepted(actions)
    ensures ActionsFromV2(actions).Ok? <==> FieldsPresent(actions)
  {
    if actions != [] {
      var tail := actions[1..];
      assert forall i :: 0 <= i < |tail| ==> tail[i] == actions[i + 1];
      ActionsFromV2Iff(tail);
      if FieldsPresent(tail) && actions[0].spend.nullifier.Some? && actions[0].spend.rk.Some? {
        forall i | 0 <= i < |actions| ensures actions[i].spend.nullifier.Some? && actions[i].spend.rk.Some? {
          assert i > 0 ==> actions[i] == tail[i - 1];
        }
      }
    }
  }

  /** A version 2 structure is taken when its memos are stripped and every action has a nullifier and a key. */
  predicate V2Acceptable(p: V2Pczt) {
    && MemosAccepted(p)
    && (p.orchard.Some? ==> FieldsPresent(p.orchard.value.actions))
    && (p.ironwood.Some? ==> FieldsPresent(p.ironwood.value.actions))
  }

  lemma VersionBytes(b: Bytes)
    requires |b| == 4
    ensures FromLe32(b) == 1 <==> b == [1, 0, 0, 0]
    ensures FromLe32(b) == 2 <==> b == [2, 0, 0, 0]
  {
  }

  /** Parsing succeeds exactly on "PCZT" followed by a version of one or two, least byte first, and a body
      that the codec of that version decodes, for version 2 to an acceptable structure. */
  lemma ParseSucceedsIff(codec: Postcard, bytes: Bytes)
    ensures Parse(codec, bytes).Ok? <==>
            && |bytes| >= 8 && bytes[..4] == [80, 67, 90, 84]
            && (|| (bytes[4..8] == [1, 0, 0, 0] && codec.decode1(bytes[8..]).Some?)
                || (&& bytes[4..8] == [2, 0, 0, 0] && codec.decode2(bytes[8..]).Some?
                    && V2Acceptable(codec.decode2(bytes[8..]).value)))
    ensures |bytes| < 8 ==> Parse(codec, bytes) == Err(TooShort)
    ensures |bytes| >= 8 && bytes[..4] != [80, 67, 90, 84] ==> Parse(codec, bytes) == Err(NotPczt)
    ensures && |bytes| >= 8 && bytes[..4] == [80, 67, 90, 84]
            && bytes[4..8] != [1, 0, 0, 0] && bytes[4..8] != [2, 0, 0, 0] ==>
              Parse(codec, bytes).Err? && Parse(codec, bytes).error.UnknownVersion?
  {
    if |bytes| >= 8 {
      VersionBytes(bytes[4..8]);
      hide FromLe32;
      if bytes[4..8] == [2, 0, 0, 0] && codec.decode2(bytes[8..]).Some? {
        var p := codec.decode2(bytes[8..]).value;
        if MemosAccepted(p) {
          FromV2Iff(p);
        }
      }
      hide FromV2, FromV1, MemosAccepted, FieldsPresent;
    }
  }

  lemma FromV2Iff(p: V2Pczt)
    requires MemosAccepted(p)
    ensures FromV2(p).Ok? <==> V2Acceptable(p)
  {
    if p.orchard.Some? {
      ActionsFromV2Iff(p.orchard.value.actions);
    }
    if p.ironwood.Some? {
      ActionsFromV2Iff(p.ironwood.value.actions);
    }
    hide ActionsFromV2, FieldsPresent;
  }

  /** Exactly which bundles version 2 leaves out: those with nothing in them, where a missing anchor and 32
      zero bytes both count as nothing. */
  lemma OmittedIff(p: Pczt)
    ensures ToV2(p).transparent.None? <==> p.transparent.inputs == [] && p.transparent.outputs == []
    ensures ToV2(p).sapling.None? <==>
            && p.sapling.spends == [] && p.sapling.outputs == [] && p.sapling.valueSum == 0
            && (p.sapling.anchor.None? || p.sapling.anchor.value == seq(32, _ => 0)) && p.sapling.bsk.None?
    ensures ToV2(p).orchard.None? <==>
            && p.orchard.actions == [] && p.orchard.flags == 3 && p.orchard.valueSum == O.ValueSum(0, false)
            && (p.orchard.anchor.None? || p.orchard.anchor.value == seq(32, _ => 0))
            && p.orchard.noteVersion == O.V2 && p.orchard.zkproof.None? && p.orchard.bsk.None?
    ensures ToV2(p).ironwood.None? <==>
            && p.ironwood.actions == [] && p.ironwood.flags == 7 && p.ironwood.valueSum == O.ValueSum(0, false)
            && (p.ironwood.anchor.None? || p.ironwood.anchor.value == seq(32, _ => 0))
            && p.ironwood.noteVersion == O.V3 && p.ironwood.zkproof.None? && p.ironwood.bsk.None?
  {
    ZerosAre(32);
    hide OrchardToV2;
  }

  lemma {:induction false} ZerosAre(n: nat)
    ensures Zeros(n) == seq(n, _ => 0)
  {
    if n > 0 {
      ZerosAre(n - 1);
    }
  }

  /** The one way to change version on re-serialization: the only thing that kept a PCZT out of
      version 1 was an all-zero anchor in an otherwise empty Ironwood slot, which parsing drops. */
  predicate LosesIronwoodAnchor(p: Pczt) {
    && p.ironwood == O.EMPTY_IRONWOOD.(anchor := Some(DefaultAnchor()))
    && V1Representable(p.(ironwood := O.EMPTY_IRONWOOD))
  }

  lemma ReparsedRepresentable(p: Pczt)
    requires !V1Representable(p)
    ensures FromV2(ToV2(p)).Ok? && (V1Representable(FromV2(ToV2(p)).value) <==> LosesIronwoodAnchor(p))
  {
    ActionsV2RoundTrip(p.orchard.actions);
    ActionsV2RoundTrip(p.ironwood.actions);
  }

  /** Parsing and serializing again gives the same bytes, exactly but for that case. */
  lemma ReserializeIsStable(codec: Postcard, p: Pczt)
    requires codec.Faithful()
    ensures Serialize(codec, p).Ok? && Parse(codec, Serialize(codec, p).value).Ok?
    ensures Serialize(codec, Parse(codec, Serialize(codec, p).value).value) == Serialize(codec, p) <==>
            !LosesIronwoodAnchor(p)
  {
    ParseInvertsSerialize(codec, p);
    SerializePicksMinimal(codec, p);
    var q := Parse(codec, Serialize(codec, p).value).value;
    SerializePicksMinimal(codec, q);
    if V1Representable(p) {
      ThroughV1(p);
    } else {
      ThroughV2(p);
      ReparsedRepresentable(p);
    }
  }

  /** So bytes do change for any PCZT that fits version 1, given an all-zero Ironwood anchor. */
  lemma ReserializeCanChangeBytes(codec: Postcard, p: Pczt)
    requires codec.Faithful() && V1Representable(p)
    ensures
      var q := p.(ironwood := O.EMPTY_IRONWOOD.(anchor := Some(DefaultAnchor())));
      && Serialize(codec, q).Ok? && Parse(codec, Serialize(codec, q).value).Ok?
      && Serialize(codec, Parse(codec, Serialize(codec, q).value).value) != Serialize(codec, q)
  {
    var q := p.(ironwood := O.EMPTY_IRONWOOD.(anchor := Some(DefaultAnchor())));
    assert q.(ironwood := O.EMPTY_IRONWOOD) == p;
    ReserializeIsStable(codec, q);
  }

  // ---------- Copies that took different paths ----------

  /** The join of two copies of one bundle's anchor. */
  function JoinAnchor(a: Option<Bytes>, b: Option<Bytes>): Option<Bytes> {
    if a.Some? then a else b
  }

  function JoinAnchors(a: Pczt, b: Pczt): Pczt {
    a.(sapling := a.sapling.(anchor := JoinAnchor(a.sapling.anchor, b.sapling.anchor)),
       orchard := a.orchard.(anchor := JoinAnchor(a.orchard.anchor, b.orchard.anchor)),
       ironwood := a.ironwood.(anchor := JoinAnchor(a.ironwood.anchor, b.ironwood.anchor)))
  }

  /** Copies that differ only in those anchors agree on everything else. */
  lemma NearCopiesShare(a: Pczt, b: Pczt)
    requires SameUpToAnchors(a, b)
    ensures a == b.(sapling := b.sapling.(anchor := a.sapling.anchor),
                    orchard := b.orchard.(anchor := a.orchard.anchor),
                    ironwood := b.ironwood.(anchor := a.ironwood.anchor))
    ensures OptionLeq(b.sapling.anchor, JoinAnchor(a.sapling.anchor, b.sapling.anchor))
    ensures OptionLeq(b.orchard.anchor, JoinAnchor(a.orchard.anchor, b.orchard.anchor))
    ensures OptionLeq(b.ironwood.anchor, JoinAnchor(a.ironwood.anchor, b.ironwood.anchor))
    ensures SameUpToAnchors(JoinAnchors(a, b), a)
  {
  }

  lemma JoinAnchorsBetween(a: Pczt, b: Pczt, r: Pczt)
    requires SameUpToAnchors(a, b)
    requires a.global.ReservedBitsClear()
    ensures PcztLeq(a, JoinAnchors(a, b)) && PcztLeq(b, JoinAnchors(a, b))
    ensures PcztLeq(a, r) && PcztLeq(b, r) ==> PcztLeq(JoinAnchors(a, b), r)
  {
    OrderReflexive(a);
    OrderReflexive(b);
    NearCopiesShare(a, b);
  }

  /** Copies that differ only in those anchors always merge, and the result differs from neither. */
  lemma NearCopiesMerge(a: Pczt, b: Pczt)
    requires SameUpToAnchors(a, b)
    requires a.global.ReservedBitsClear()
    ensures MergePczt(a, b).Some?
    ensures SameUpToAnchors(MergePczt(a, b).value, a)
  {
    var u := JoinAnchors(a, b);
    NearCopiesShare(a, b);
    JoinAnchorsBetween(a, b, u);
    MergeLeast(a, b, u);
    var r := MergePczt(a, b).value;
    assert SameInformation(r, u) by {
      MergeUpper(a, b);
      JoinAnchorsBetween(a, b, r);
      OrderAntisymmetric(r, u);
    }
    assert r == WithSumsOf(r, a) by {
      MergeTakesSums(a, b);
    }
    assert u == WithSumsOf(u, a);
  }

  /** Two copies of a PCZT that version 1 can represent, one sent through each version, always
      merge, and to the original up to those anchors. */
  lemma CrossVersionCopiesMerge(p: Pczt)
    requires V1Representable(p) && p.global.ReservedBitsClear()
    ensures ToV1(p).Ok? && FromV2(ToV2(p)).Ok?
    ensures
      var viaV1, viaV2 := FromV1(ToV1(p).value), FromV2(ToV2(p)).value;
      && MergePczt(viaV1, viaV2).Some? && SameUpToAnchors(MergePczt(viaV1, viaV2).value, p)
      && MergePczt(viaV2, viaV1).Some? && SameUpToAnchors(MergePczt(viaV2, viaV1).value, p)
  {
    ActionsToV1Iff(p.orchard.actions);
    ThroughV1(p);
    ThroughV2(p);
    var viaV1, viaV2 := FromV1(ToV1(p).value), FromV2(ToV2(p)).value;
    NearCopiesMerge(viaV1, viaV2);
    NearCopiesMerge(viaV2, viaV1);
  }
}
