/** Memos without their trailing zero bytes, as compacted outputs carry them. */
module Memos {
  import opened Wrappers
  import opened Common

  const MEMO_SIZE := 512

  /** A memo as the protocol has it. */
  type Memo = b: Bytes | |b| == MEMO_SIZE witness seq(MEMO_SIZE, _ => 0)

  /** A memo without its trailing zero bytes. */
  type StrippedMemo = b: Bytes | |b| <= MEMO_SIZE && (b == [] || b[|b| - 1] != 0)

  datatype MemoError = TooLong | NotStripped

  /** Drops all trailing zero bytes. */
  function Strip(memo: Bytes): (r: Bytes)
    ensures |r| <= |memo|
    ensures r == [] || r[|r| - 1] != 0
  {
    if memo != [] && memo[|memo| - 1] == 0 then Strip(memo[..|memo| - 1]) else memo
  }

  /** `MemoPlaintext::from_memo`. */
  function FromMemo(memo: Memo): StrippedMemo {
    Strip(memo)
  }

  /** `MemoPlaintext::from_stripped_bytes`, the check that deserializing makes. */
  function FromStrippedBytes(bytes: Bytes): Result<StrippedMemo, MemoError> {
    if |bytes| > MEMO_SIZE then Err(TooLong)
    else if bytes != [] && bytes[|bytes| - 1] == 0 then Err(NotStripped)
    else Ok(bytes)
  }

  /** `MemoPlaintext::to_memo`: pad with zero bytes to the full size. */
  function ToMemo(stripped: StrippedMemo): Memo {
    ZerosSnoc(MEMO_SIZE - |stripped|);
    stripped + Zeros(MEMO_SIZE - |stripped|)
  }

  lemma {:induction false} ZerosSnoc(n: nat)
    ensures Zeros(n) + [0] == [0] + Zeros(n) == Zeros(n + 1)
    ensures |Zeros(n)| == n
  {
    if n > 0 {
      ZerosSnoc(n - 1);
      calc {
        Zeros(n) + [0];
        [0] + Zeros(n - 1) + [0];
        [0] + (Zeros(n - 1) + [0]);
        [0] + Zeros(n);
      }
    }
  }

  /** Padding to the original length undoes stripping. */
  lemma {:induction false} PadUndoesStrip(memo: Bytes)
    ensures Strip(memo) + Zeros(|memo| - |Strip(memo)|) == memo
  {
    if memo != [] && memo[|memo| - 1] == 0 {
      var front := memo[..|memo| - 1];
      PadUndoesStrip(front);
      var n := |front| - |Strip(front)|;
      ZerosSnoc(n);
      assert Strip(front) + Zeros(n + 1) == Strip(front) + Zeros(n) + [0];
      assert front + [0] == memo;
    }
  }

  lemma StripZero(front: Bytes)
    ensures Strip(front + [0]) == Strip(front)
  {
    assert (front + [0])[..|front|] == front;
  }

  lemma StripNothing(bytes: Bytes)
    requires bytes == [] || bytes[|bytes| - 1] != 0
    ensures Strip(bytes) == bytes
  {
  }

  lemma {:induction false} StripUndoesPad(bytes: Bytes, n: nat)
    requires bytes == [] || bytes[|bytes| - 1] != 0
    ensures Strip(bytes + Zeros(n)) == bytes
  {
    hide Strip;
    if n == 0 {
      assert bytes + Zeros(0) == bytes;
      StripNothing(bytes);
    } else {
      var front := bytes + Zeros(n - 1);
      assert bytes + Zeros(n) == front + [0] by {
        ZerosSnoc(n - 1);
      }
      hide Zeros;
      StripZero(front);
      StripUndoesPad(bytes, n - 1);
    }
  }

  /** Every memo is restored from its stripped form, and every stripped form from its memo. */
  lemma MemoRestored(memo: Memo, stripped: StrippedMemo)
    ensures ToMemo(FromMemo(memo)) == memo
    ensures FromMemo(ToMemo(stripped)) == stripped
  {
    PadUndoesStrip(memo);
    StripUndoesPad(stripped, MEMO_SIZE - |stripped|);
  }

  /** Deserializing accepts exactly the stripped forms of memos, each as itself, so that each memo has
      one encoding. */
  lemma StrippedAcceptedIff(bytes: Bytes)
    ensures FromStrippedBytes(bytes).Ok? <==> exists memo: Memo :: FromMemo(memo) == bytes
    ensures FromStrippedBytes(bytes).Ok? ==> FromStrippedBytes(bytes).value == bytes
  {
    if FromStrippedBytes(bytes).Ok? {
      var stripped: StrippedMemo := bytes;
      MemoRestored(ToMemo(stripped), stripped);
    }
  }
}
