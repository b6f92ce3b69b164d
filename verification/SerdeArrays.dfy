/**
 The encodings of fixed-length arrays, optional arrays, and maps keyed by arrays.

 Arrays carry no length prefix; maps carry a count. The codecs of counts and of map values belong to
 the serialization library: they are parameters, asked to be self-delimiting. What is proved is that
 the encodings built on them are self-delimiting again. Variable-length integers and byte strings, the
 codecs in actual use, are shown to qualify.
 */
module SerdeArrays {
  import opened Wrappers
  import opened Common

  /** A reader returns the value and the bytes it left unread. */
  datatype Codec<!V> = Codec(encode: V -> Bytes, decode: Bytes -> Option<(V, Bytes)>)

  /** On the values in `domain`: reading stops exactly where writing did, whatever follows, and no
      truncated encoding is accepted. */
  ghost predicate SelfDelimiting<V(!new)>(c: Codec<V>, domain: V -> bool) {
    && (forall v, rest :: domain(v) ==> c.decode(c.encode(v) + rest) == Some((v, rest)))
    && (forall v, p :: domain(v) && p < c.encode(v) ==> c.decode(p).None?)
  }

  // ---------- Arrays ----------

  /** A tuple of `n` bytes: the bytes themselves. */
  function DecodeArray(n: nat, bytes: Bytes): Option<(Bytes, Bytes)> {
    if |bytes| < n then None else Some((bytes[..n], bytes[n..]))
  }

  function ArrayCodec(n: nat): Codec<Bytes> {
    Codec(a => a, bytes => DecodeArray(n, bytes))
  }

  /** The array visitor: one element at a time, failing when the input runs out. */
  method VisitSeq(n: nat, bytes: Bytes) returns (r: Option<(Bytes, Bytes)>)
    ensures r == DecodeArray(n, bytes)
  {
    var read: Bytes := [];
    var rest := bytes;
    while |read| < n
      invariant |read| <= n
      invariant read + rest == bytes
      decreases n - |read|
    {
      if rest == [] {
        assert bytes == read;
        return None;
      }
      assert bytes == read + [rest[0]] + rest[1..];
      read, rest := read + [rest[0]], rest[1..];
    }
    assert bytes[..n] == read && bytes[n..] == rest;
    return Some((read, rest));
  }

  lemma ArraySelfDelimiting(n: nat)
    ensures SelfDelimiting(ArrayCodec(n), (a: Bytes) => |a| == n)
  {
    forall a: Bytes, rest | |a| == n ensures DecodeArray(n, a + rest) == Some((a, rest)) {
      assert (a + rest)[..n] == a && (a + rest)[n..] == rest;
    }
  }

  // ---------- Optional arrays ----------

  function EncodeOption<V>(c: Codec<V>, o: Option<V>): Bytes {
    match o
    case None => [0]
    case Some(v) => [1] + c.encode(v)
  }

  function DecodeOption<V>(c: Codec<V>, bytes: Bytes): Option<(Option<V>, Bytes)> {
    if bytes == [] then None
    else if bytes[0] == 0 then Some((None, bytes[1..]))
    else if bytes[0] == 1 then
      var (v, rest) :- c.decode(bytes[1..]);
      Some((Some(v), rest))
    else None
  }

  function OptionCodec<V>(c: Codec<V>): Codec<Option<V>> {
    Codec((o: Option<V>) => EncodeOption(c, o), bytes => DecodeOption(c, bytes))
  }

  lemma OptionSelfDelimiting<V(!new)>(c: Codec<V>, domain: V -> bool)
    requires SelfDelimiting(c, domain)
    ensures SelfDelimiting(OptionCodec(c), (o: Option<V>) => o.Some? ==> domain(o.value))
  {
    forall o: Option<V>, rest | o.Some? ==> domain(o.value)
      ensures DecodeOption(c, EncodeOption(c, o) + rest) == Some((o, rest))
    {
      assert (EncodeOption(c, o) + rest)[1..] == (if o.Some? then c.encode(o.value) + rest else rest);
    }
    forall o: Option<V>, p | (o.Some? ==> domain(o.value)) && p < EncodeOption(c, o)
      ensures DecodeOption(c, p).None?
    {
      if p != [] {
        assert o.Some? && p[0] == 1;
        assert p[1..] < c.encode(o.value);
      }
    }
  }

  // ---------- Maps keyed by arrays ----------

  type Entry<V> = (Bytes, V)

  function EncodeEntry<V>(c: Codec<V>, e: Entry<V>): Bytes {
    e.0 + c.encode(e.1)
  }

  function EncodeEntries<V>(c: Codec<V>, entries: seq<Entry<V>>): Bytes {
    if entries == [] then [] else EncodeEntry(c, entries[0]) + EncodeEntries(c, entries[1..])
  }

  function EncodeMap<V>(count: Codec<nat>, c: Codec<V>, entries: seq<Entry<V>>): Bytes {
    count.encode(|entries|) + EncodeEntries(c, entries)
  }

  /** Inserting entries in order: a repeated key keeps its last value. */
  function Inserted<V>(m: map<Bytes, V>, entries: seq<Entry<V>>): map<Bytes, V>
    decreases entries
  {
    if entries == [] then m else Inserted(m[entries[0].0 := entries[0].1], entries[1..])
  }

  function DecodeEntry<V>(n: nat, c: Codec<V>, bytes: Bytes): Option<(Entry<V>, Bytes)> {
    var (key, rest) :- DecodeArray(n, bytes);
    var (value, rest') :- c.decode(rest);
    Some(((key, value), rest'))
  }

  function DecodeEntries<V>(n: nat, c: Codec<V>, remaining: nat, acc: map<Bytes, V>, bytes: Bytes)
    : Option<(map<Bytes, V>, Bytes)>
  {
    if remaining == 0 then Some((acc, bytes))
    else
      var (entry, rest) :- DecodeEntry(n, c, bytes);
      DecodeEntries(n, c, remaining - 1, acc[entry.0 := entry.1], rest)
  }

  function DecodeMap<V>(n: nat, count: Codec<nat>, c: Codec<V>, bytes: Bytes): Option<(map<Bytes, V>, Bytes)> {
    var (remaining, rest) :- count.decode(bytes);
    DecodeEntries(n, c, remaining, map[], rest)
  }

  /** The map visitor: read and insert one entry at a time. */
  method VisitMap<V>(n: nat, count: Codec<nat>, c: Codec<V>, bytes: Bytes) returns (r: Option<(map<Bytes, V>, Bytes)>)
    ensures r == DecodeMap(n, count, c, bytes)
  {
    var header := count.decode(bytes);
    if header.None? {
      return None;
    }
    var values: map<Bytes, V> := map[];
    var remaining, rest := header.value.0, header.value.1;
    while remaining > 0
      invariant DecodeMap(n, count, c, bytes) == DecodeEntries(n, c, remaining, values, rest)
    {
      var entry := DecodeEntry(n, c, rest);
      if entry.None? {
        return None;
      }
      values := values[entry.value.0.0 := entry.value.0.1];
      remaining, rest := remaining - 1, entry.value.1;
    }
    return Some((values, rest));
  }

  predicate EntryIn<V>(n: nat, domain: V -> bool, e: Entry<V>) {
    |e.0| == n && domain(e.1)
  }

  predicate EntriesIn<V>(n: nat, domain: V -> bool, entries: seq<Entry<V>>) {
    forall i :: 0 <= i < |entries| ==> EntryIn(n, domain, entries[i])
  }

  lemma EntryDecodes<V(!new)>(n: nat, c: Codec<V>, domain: V -> bool, e: Entry<V>, rest: Bytes)
    requires SelfDelimiting(c, domain) && EntryIn(n, domain, e)
    ensures DecodeEntry(n, c, EncodeEntry(c, e) + rest) == Some((e, rest))
  {
    var bytes := EncodeEntry(c, e) + rest;
    assert bytes[..n] == e.0;
    assert bytes[n..] == c.encode(e.1) + rest;
  }

  lemma EntryRejectsPrefix<V(!new)>(n: nat, c: Codec<V>, domain: V -> bool, e: Entry<V>, p: Bytes)
    requires SelfDelimiting(c, domain) && EntryIn(n, domain, e)
    requires p < EncodeEntry(c, e)
    ensures DecodeEntry(n, c, p).None?
  {
    if |p| >= n {
      assert p[n..] < c.encode(e.1);
    }
  }

  lemma {:induction false} EntriesDecode<V(!new)>(n: nat, c: Codec<V>, domain: V -> bool, acc: map<Bytes, V>,
                                                 entries: seq<Entry<V>>, rest: Bytes)
    requires SelfDelimiting(c, domain) && EntriesIn(n, domain, entries)
    ensures DecodeEntries(n, c, |entries|, acc, EncodeEntries(c, entries) + rest) ==
            Some((Inserted(acc, entries), rest))
    decreases entries
  {
    if entries == [] {
      assert EncodeEntries(c, entries) + rest == rest;
    } else {
      var e, tail := entries[0], entries[1..];
      var after := EncodeEntries(c, tail) + rest;
      assert EncodeEntries(c, entries) + rest == EncodeEntry(c, e) + after;
      EntryDecodes(n, c, domain, e, after);
      EntriesDecode(n, c, domain, acc[e.0 := e.1], tail, rest);
    }
  }

  lemma {:induction false} EntriesRejectPrefix<V(!new)>(n: nat, c: Codec<V>, domain: V -> bool, acc: map<Bytes, V>,
                                                       entries: seq<Entry<V>>, p: Bytes)
    requires SelfDelimiting(c, domain) && EntriesIn(n, domain, entries)
    requires p < EncodeEntries(c, entries)
    ensures DecodeEntries(n, c, |entries|, acc, p).None?
    decreases entries
  {
    var e, tail := entries[0], entries[1..];
    var head := EncodeEntry(c, e);
    if |p| < |head| {
      assert p < head;
      EntryRejectsPrefix(n, c, domain, e, p);
    } else {
      var after := p[|head|..];
      assert p == head + after;
      assert after < EncodeEntries(c, tail);
      EntryDecodes(n, c, domain, e, after);
      EntriesRejectPrefix(n, c, domain, acc[e.0 := e.1], tail, after);
    }
  }

  /** For every array length and every list of entries, in any order and with repeated keys: decoding
      gives the map of last values and leaves what follows, and no strict prefix is accepted. */
  lemma MapSelfDelimiting<V(!new)>(n: nat, count: Codec<nat>, c: Codec<V>, domain: V -> bool,
                                   entries: seq<Entry<V>>, rest: Bytes, p: Bytes)
    requires SelfDelimiting(count, (_: nat) => true) && SelfDelimiting(c, domain) && EntriesIn(n, domain, entries)
    ensures DecodeMap(n, count, c, EncodeMap(count, c, entries) + rest) == Some((Inserted(map[], entries), rest))
    ensures p < EncodeMap(count, c, entries) ==> DecodeMap(n, count, c, p).None?
  {
    var header, body := count.encode(|entries|), EncodeEntries(c, entries);
    assert header + body + rest == header + (body + rest);
    EntriesDecode(n, c, domain, map[], entries, rest);
    if p < header + body {
      if |p| < |header| {
        assert p < header;
      } else {
        var after := p[|header|..];
        assert p == header + after;
        assert after < body;
        EntriesRejectPrefix(n, c, domain, map[], entries, after);
      }
    }
  }

  /** `entries` lists the map `m`, each key once. */
  ghost predicate Lists<V(!new)>(entries: seq<Entry<V>>, m: map<Bytes, V>) {
    && (forall i, j :: 0 <= i < j < |entries| ==> entries[i].0 != entries[j].0)
    && (forall i :: 0 <= i < |entries| ==> entries[i].0 in m && m[entries[i].0] == entries[i].1)
    && (forall k :: k in m ==> exists i :: 0 <= i < |entries| && entries[i].0 == k)
  }

  ghost predicate Holds<V>(entries: seq<Entry<V>>, k: Bytes) {
    exists i :: 0 <= i < |entries| && entries[i].0 == k
  }

  /** The `i`-th entry is the last one for its key. */
  ghost predicate IsLast<V>(entries: seq<Entry<V>>, i: nat) {
    i < |entries| && forall j :: i < j < |entries| ==> entries[j].0 != entries[i].0
  }

  lemma {:induction false} InsertedElsewhere<V>(m: map<Bytes, V>, entries: seq<Entry<V>>, k: Bytes)
    requires !Holds(entries, k)
    ensures k in Inserted(m, entries) <==> k in m
    ensures k in m ==> Inserted(m, entries)[k] == m[k]
    decreases entries
  {
    if entries != [] {
      var tail := entries[1..];
      assert entries[0].0 != k;
      assert forall i :: 0 <= i < |tail| ==> tail[i] == entries[i + 1];
      InsertedElsewhere(m[entries[0].0 := entries[0].1], tail, k);
    }
  }

  lemma {:induction false} InsertedLast<V>(m: map<Bytes, V>, entries: seq<Entry<V>>, i: nat)
    requires IsLast(entries, i)
    ensures entries[i].0 in Inserted(m, entries) && Inserted(m, entries)[entries[i].0] == entries[i].1
    decreases entries
  {
    var e, tail := entries[0], entries[1..];
    assert forall j :: 0 <= j < |tail| ==> tail[j] == entries[j + 1];
    if i == 0 {
      InsertedElsewhere(m[e.0 := e.1], tail, e.0);
    } else {
      InsertedLast(m[e.0 := e.1], tail, i - 1);
    }
  }

  lemma {:induction false} LastEntry<V>(entries: seq<Entry<V>>, k: Bytes) returns (i: nat)
    requires Holds(entries, k)
    ensures IsLast(entries, i) && entries[i].0 == k
    decreases entries
  {
    var n := |entries| - 1;
    if entries[n].0 == k {
      i := n;
    } else {
      i := LastEntry(entries[..n], k);
    }
  }

  /** After inserting, the keys are the old ones and those of the entries; a key holds the value of its
      last entry, or what it held before. */
  lemma InsertedLookup<V>(m: map<Bytes, V>, entries: seq<Entry<V>>, k: Bytes)
    ensures k in Inserted(m, entries) <==> k in m || Holds(entries, k)
    ensures forall i: nat :: IsLast(entries, i) && entries[i].0 == k ==>
              k in Inserted(m, entries) && Inserted(m, entries)[k] == entries[i].1
    ensures k in m && !Holds(entries, k) ==> k in Inserted(m, entries) && Inserted(m, entries)[k] == m[k]
  {
    if Holds(entries, k) {
      var i := LastEntry(entries, k);
      InsertedLast(m, entries, i);
      forall j: nat | IsLast(entries, j) && entries[j].0 == k ensures j == i {
        assert !(i < j) && !(j < i);
      }
    } else {
      InsertedElsewhere(m, entries, k);
    }
  }

  /** Decoding inverts encoding for every map, whichever order its entries are written in. */
  lemma MapRoundTrip<V(!new)>(n: nat, count: Codec<nat>, c: Codec<V>, domain: V -> bool, m: map<Bytes, V>,
                              entries: seq<Entry<V>>, rest: Bytes)
    requires SelfDelimiting(count, (_: nat) => true) && SelfDelimiting(c, domain)
    requires Lists(entries, m) && EntriesIn(n, domain, entries)
    ensures DecodeMap(n, count, c, EncodeMap(count, c, entries) + rest) == Some((m, rest))
  {
    MapSelfDelimiting(n, count, c, domain, entries, rest, []);
    var decoded := Inserted(map[], entries);
    forall k ensures k in decoded <==> k in m {
      InsertedLookup(map[], entries, k);
    }
    forall k | k in m ensures decoded[k] == m[k] {
      InsertedLookup(map[], entries, k);
      var i :| 0 <= i < |entries| && entries[i].0 == k;
      assert IsLast(entries, i);
    }
    assert decoded == m;
  }

  // ---------- Nothing else is accepted ----------

  /** Whatever is decoded was encoded: the value is in the domain and its encoding is what was read. */
  ghost predicate Exact<V(!new)>(c: Codec<V>, domain: V -> bool) {
    forall bytes, v, rest :: c.decode(bytes) == Some((v, rest)) ==> domain(v) && bytes == c.encode(v) + rest
  }

  lemma ArrayExact(n: nat)
    ensures Exact(ArrayCodec(n), (a: Bytes) => |a| == n)
  {
    forall bytes: Bytes | |bytes| >= n ensures bytes == bytes[..n] + bytes[n..] {
    }
  }

  lemma OptionExact<V(!new)>(c: Codec<V>, domain: V -> bool)
    requires Exact(c, domain)
    ensures Exact(OptionCodec(c), (o: Option<V>) => o.Some? ==> domain(o.value))
  {
    forall bytes, o: Option<V>, rest | DecodeOption(c, bytes) == Some((o, rest))
      ensures (o.Some? ==> domain(o.value)) && bytes == EncodeOption(c, o) + rest
    {
      assert bytes == [bytes[0]] + bytes[1..];
      if o.Some? {
        var read := c.decode(bytes[1..]).value;
        assert read == (read.0, read.1) == (o.value, rest);
        assert c.decode(bytes[1..]) == Some((o.value, rest));
        assert bytes[1..] == c.encode(o.value) + rest;
      }
    }
  }

  lemma EntryExact<V(!new)>(n: nat, c: Codec<V>, domain: V -> bool, bytes: Bytes)
    requires Exact(c, domain) && DecodeEntry(n, c, bytes).Some?
    ensures
      var (e, rest) := DecodeEntry(n, c, bytes).value;
      EntryIn(n, domain, e) && bytes == EncodeEntry(c, e) + rest
  {
    var (e, rest) := DecodeEntry(n, c, bytes).value;
    assert bytes == bytes[..n] + bytes[n..];
    var read := c.decode(bytes[n..]).value;
    assert read == (read.0, read.1) == (e.1, rest);
    assert c.decode(bytes[n..]) == Some((e.1, rest));
    assert e.0 + (c.encode(e.1) + rest) == EncodeEntry(c, e) + rest;
  }

  lemma {:induction false} EntriesExact<V(!new)>(n: nat, c: Codec<V>, domain: V -> bool, remaining: nat,
                                                acc: map<Bytes, V>, bytes: Bytes) returns (entries: seq<Entry<V>>)
    requires Exact(c, domain) && DecodeEntries(n, c, remaining, acc, bytes).Some?
    ensures
      var (m, rest) := DecodeEntries(n, c, remaining, acc, bytes).value;
      && |entries| == remaining && EntriesIn(n, domain, entries)
      && m == Inserted(acc, entries) && bytes == EncodeEntries(c, entries) + rest
    decreases remaining
  {
    if remaining == 0 {
      entries := [];
      assert EncodeEntries(c, entries) + bytes == bytes;
    } else {
      var (e, after) := DecodeEntry(n, c, bytes).value;
      EntryExact(n, c, domain, bytes);
      var tail := EntriesExact(n, c, domain, remaining - 1, acc[e.0 := e.1], after);
      entries := [e] + tail;
      var rest := DecodeEntries(n, c, remaining, acc, bytes).value.1;
      assert entries[1..] == tail;
      assert EncodeEntry(c, e) + (EncodeEntries(c, tail) + rest) == EncodeEntries(c, entries) + rest;
    }
  }

  /** Every map that is decoded was written as a list of entries, from which it holds the last values; with a
      count that may be written in one way only, nothing else is accepted. */
  lemma MapExact<V(!new)>(n: nat, count: Codec<nat>, c: Codec<V>, domain: V -> bool, bytes: Bytes)
    returns (entries: seq<Entry<V>>)
    requires Exact(count, (_: nat) => true) && Exact(c, domain) && DecodeMap(n, count, c, bytes).Some?
    ensures
      var (m, rest) := DecodeMap(n, count, c, bytes).value;
      EntriesIn(n, domain, entries) && m == Inserted(map[], entries) && bytes == EncodeMap(count, c, entries) + rest
  {
    var (remaining, after) := count.decode(bytes).value;
    entries := EntriesExact(n, c, domain, remaining, map[], after);
    var rest := DecodeMap(n, count, c, bytes).value.1;
    assert count.encode(remaining) + (EncodeEntries(c, entries) + rest) == EncodeMap(count, c, entries) + rest;
  }

  // ---------- Counts and byte strings ----------

  /** Seven bits to a byte, low bits first, the high bit set on all but the last. */
  function EncodeVarint(v: nat): Bytes {
    if v < 128 then [v as byte] else [(128 + v % 128) as byte] + EncodeVarint(v / 128)
  }

  function DecodeVarint(bytes: Bytes): Option<(nat, Bytes)> {
    if bytes == [] then None
    else if bytes[0] < 128 then Some((bytes[0] as nat, bytes[1..]))
    else
      var (high, rest) :- DecodeVarint(bytes[1..]);
      Some((bytes[0] as nat - 128 + 128 * high, rest))
  }

  const VARINT := Codec(EncodeVarint, DecodeVarint)

  lemma {:induction false} VarintDecodes(v: nat, rest: Bytes)
    ensures DecodeVarint(EncodeVarint(v) + rest) == Some((v, rest))
  {
    var bytes := EncodeVarint(v) + rest;
    if v < 128 {
      assert bytes[1..] == rest;
    } else {
      VarintDecodes(v / 128, rest);
      assert bytes[1..] == EncodeVarint(v / 128) + rest;
    }
  }

  lemma {:induction false} VarintRejectsPrefix(v: nat, p: Bytes)
    requires p < EncodeVarint(v)
    ensures DecodeVarint(p).None?
  {
    if v >= 128 && p != [] {
      assert p[1..] < EncodeVarint(v / 128);
      VarintRejectsPrefix(v / 128, p[1..]);
    }
  }

  lemma VarintSelfDelimiting()
    ensures SelfDelimiting(VARINT, (_: nat) => true)
  {
    forall v: nat, rest ensures DecodeVarint(EncodeVarint(v) + rest) == Some((v, rest)) {
      VarintDecodes(v, rest);
    }
    forall v: nat, p | p < EncodeVarint(v) ensures DecodeVarint(p).None? {
      VarintRejectsPrefix(v, p);
    }
  }

  function DecodeBytes(bytes: Bytes): Option<(Bytes, Bytes)> {
    var (n, rest) :- DecodeVarint(bytes);
    DecodeArray(n, rest)
  }

  const BYTE_STRING := Codec((b: Bytes) => EncodeVarint(|b|) + b, DecodeBytes)

  lemma BytesSelfDelimiting()
    ensures SelfDelimiting(BYTE_STRING, (_: Bytes) => true)
  {
    forall b: Bytes, rest ensures DecodeBytes(EncodeVarint(|b|) + b + rest) == Some((b, rest)) {
      VarintDecodes(|b|, b + rest);
      assert EncodeVarint(|b|) + b + rest == EncodeVarint(|b|) + (b + rest);
      assert (b + rest)[..|b|] == b && (b + rest)[|b|..] == rest;
    }
    forall b: Bytes, p | p < EncodeVarint(|b|) + b ensures DecodeBytes(p).None? {
      var header := EncodeVarint(|b|);
      if |p| < |header| {
        assert p < header;
        VarintRejectsPrefix(|b|, p);
      } else {
        assert p == header + p[|header|..];
        VarintDecodes(|b|, p[|header|..]);
      }
    }
  }

  /** The maps a transparent input carries, from 33-byte public keys to byte strings, round-trip. */
  lemma SignatureMapRoundTrip(m: map<Bytes, Bytes>, entries: seq<Entry<Bytes>>, rest: Bytes)
    requires Lists(entries, m) && EntriesIn(33, (_: Bytes) => true, entries)
    ensures DecodeMap(33, VARINT, BYTE_STRING, EncodeMap(VARINT, BYTE_STRING, entries) + rest) == Some((m, rest))
  {
    VarintSelfDelimiting();
    BytesSelfDelimiting();
    MapRoundTrip(33, VARINT, BYTE_STRING, (_: Bytes) => true, m, entries, rest);
  }
}
