// The catalogue's file format (changes/codec.rs): a fixed header, a checksum,
// then counted lists of entries and consumers, all integers little-endian.
module CatalogueCodec {
  import opened Common
  import opened Snapshots

  type Bytes = seq<Byte>
  type Raw32 = b: Bytes | |b| == 32 witness seq(32, i => 0)
  type U32 = x: nat | x < 0x1_0000_0000
  type U64 = x: nat | x < 0x1_0000_0000_0000_0000
  type I64 = x: int | -0x8000_0000_0000_0000 <= x < 0x8000_0000_0000_0000

  const TWO16: nat := 0x1_0000
  const TWO32: nat := 0x1_0000_0000
  const TWO64: nat := 0x1_0000_0000_0000_0000

  // Paths and consumer names are byte strings here.
  type Key = Bytes

  datatype CatEntry = CatEntry(digest: Raw32, size: U64, mtimeSecs: I64, mtimeNanos: U32, observedGeneration: U64)

  datatype Decoded = Decoded(generation: U64, entries: map<Key, CatEntry>, consumers: map<Key, U64>)

  datatype CodecError = BadMagic | BadVersion | BadChecksum | UnexpectedEof | BadUtf8

  // UTF-8 validation, lossy conversion, and the payload checksum, all left
  // uninterpreted. Lossy conversion gives UTF-8 and changes nothing that is.
  datatype Text = Text(utf8: Bytes -> bool, lossy: Bytes -> Bytes, checksum: Bytes -> U64)

  ghost predicate TextOk(t: Text) {
    forall b {:trigger t.lossy(b)} :: t.utf8(t.lossy(b)) && (t.utf8(b) ==> t.lossy(b) == b)
  }

  const MAGIC: Bytes := [83, 78, 84, 88, 67, 65, 84, 49]
  const VERSION: nat := 1

  // ---------------------------------------------------------------- integers

  function Pow256(n: nat): nat { if n == 0 then 1 else 256 * Pow256(n - 1) }

  function Le(n: nat, x: nat): (b: Bytes)
    ensures |b| == n
  {
    if n == 0 then [] else [x % 256] + Le(n - 1, x / 256)
  }

  function FromLe(b: Bytes): (x: nat)
    ensures x < Pow256(|b|)
  {
    if |b| == 0 then 0 else b[0] + 256 * FromLe(b[1..])
  }

  // Writing truncates to the width, as `as u16` and `as u32` do.
  lemma {:induction false} LeRoundTrip(n: nat, x: nat)
    requires x < Pow256(n)
    ensures FromLe(Le(n, x)) == x
  {
    if n != 0 {
      LeRoundTrip(n - 1, x / 256);
      assert Le(n, x)[1..] == Le(n - 1, x / 256);
    }
  }

  lemma Widths()
    ensures Pow256(2) == TWO16 && Pow256(4) == TWO32 && Pow256(8) == TWO64
  {
    assert Pow256(3) == 256 * Pow256(2) && Pow256(5) == 256 * Pow256(4);
    assert Pow256(6) == 256 * Pow256(5) && Pow256(7) == 256 * Pow256(6);
  }

  // Two's complement.
  function Unsigned(x: I64): U64 { if x < 0 then x + TWO64 else x }

  function Signed(x: U64): I64 { if x < 0x8000_0000_0000_0000 then x else x - TWO64 }

  // ---------------------------------------------------------------- encoding

  function EncodeEntry(t: Text, k: Key, e: CatEntry): Bytes {
    Le(2, |t.lossy(k)| % TWO16) + t.lossy(k) + EncodeFields(e)
  }

  function EncodeFields(e: CatEntry): Bytes {
    e.digest + Le(8, e.size) + Le(8, Unsigned(e.mtimeSecs)) + Le(4, e.mtimeNanos) + Le(8, e.observedGeneration)
  }

  function EncodeConsumer(name: Key, generation: U64): Bytes { Le(2, |name| % TWO16) + name + Le(8, generation) }

  function EncodeEntries(t: Text, entries: map<Key, CatEntry>, order: seq<Key>): Bytes
    requires forall k :: k in order ==> k in entries
  {
    if |order| == 0 then []
    else EncodeEntry(t, order[0], entries[order[0]]) + EncodeEntries(t, entries, order[1..])
  }

  function EncodeConsumers(consumers: map<Key, U64>, order: seq<Key>): Bytes
    requires forall k :: k in order ==> k in consumers
  {
    if |order| == 0 then []
    else EncodeConsumer(order[0], consumers[order[0]]) + EncodeConsumers(consumers, order[1..])
  }

  // An order in which to write the keys of a map: each once.
  ghost predicate Enumerates<V>(order: seq<Key>, m: map<Key, V>) {
    && (forall k :: k in order <==> k in m)
    && (forall i, j :: 0 <= i < j < |order| ==> order[i] != order[j])
  }

  function Payload(t: Text, d: Decoded, paths: seq<Key>, names: seq<Key>): Bytes
    requires (forall k :: k in paths ==> k in d.entries) && (forall k :: k in names ==> k in d.consumers)
  {
    Le(4, |d.entries| % TWO32)
    + (EncodeEntries(t, d.entries, paths) + (Le(4, |d.consumers| % TWO32) + EncodeConsumers(d.consumers, names)))
  }

  function Encode(t: Text, d: Decoded, paths: seq<Key>, names: seq<Key>): Bytes
    requires (forall k :: k in paths ==> k in d.entries) && (forall k :: k in names ==> k in d.consumers)
  {
    var payload := Payload(t, d, paths, names);
    MAGIC + Le(4, VERSION) + Le(8, d.generation) + Le(8, t.checksum(payload)) + payload
  }

  // Byte `i` of a little-endian integer has the weight 256^i.
  lemma LeWeights(b: Bytes)
    requires |b| == 8
    ensures FromLe(b[..2]) == b[0] as int + 0x100 * b[1] as int
    ensures FromLe(b[..4])
         == b[0] as int + 0x100 * b[1] as int + 0x1_0000 * b[2] as int + 0x100_0000 * b[3] as int
    ensures FromLe(b) == FromLe(b[..4]) + 0x1_0000_0000 * FromLe(b[4..])
  {
    TwoWeights(b[0], b[1]);
    FourWeights(b[0], b[1], b[2], b[3]);
    FourWeights(b[4], b[5], b[6], b[7]);
    assert b[..2] == [b[0], b[1]] && b[..4] == [b[0], b[1], b[2], b[3]] && b[4..] == [b[4], b[5], b[6], b[7]];
    UnfoldLe(b);
    UnfoldLe(b[1..]);
    UnfoldLe(b[2..]);
    UnfoldLe(b[3..]);
    DropMore(b, 1);
    DropMore(b, 2);
    DropMore(b, 3);
  }

  lemma DropMore(b: Bytes, k: nat)
    requires k < |b|
    ensures b[k..][1..] == b[k + 1..]
  {
  }

  lemma UnfoldLe(b: Bytes)
    requires b != []
    ensures FromLe(b) == b[0] as int + 256 * FromLe(b[1..])
  {
  }

  lemma TwoWeights(x: Byte, y: Byte)
    ensures FromLe([x, y]) == x as int + 0x100 * y as int
  {
    UnfoldLe([x, y]);
    assert [x, y][1..] == [y] && [y][1..] == [];
    UnfoldLe([y]);
  }

  lemma FourWeights(x: Byte, y: Byte, z: Byte, w: Byte)
    ensures FromLe([x, y, z, w]) == x as int + 0x100 * y as int + 0x1_0000 * z as int + 0x100_0000 * w as int
  {
    UnfoldLe([x, y, z, w]);
    UnfoldLe([y, z, w]);
    assert [x, y, z, w][1..] == [y, z, w] && [y, z, w][1..] == [z, w];
    TwoWeights(z, w);
  }

  // An entry as it lies in the file: the length of the path, the path, the
  // digest, then size, seconds in two's complement, nanoseconds and stamp.
  lemma EntryLayout(t: Text, k: Key, e: CatEntry)
    requires |t.lossy(k)| < TWO16
    ensures var b, n := EncodeEntry(t, k, e), |t.lossy(k)|;
            && |b| == n + 62 && FromLe(b[..2]) == n && b[2..2 + n] == t.lossy(k)
            && FieldsLie(b[2 + n..], e)
  {
    var n := |t.lossy(k)|;
    Widths();
    LeRoundTrip(2, n);
    FieldsLayout(e);
    EntryParts(t, k, e);
    ThreeParts(Le(2, n), t.lossy(k), EncodeFields(e));
  }

  ghost predicate FieldsLie(f: Bytes, e: CatEntry) {
    && |f| == 60 && f[..32] == e.digest && FromLe(f[32..40]) == e.size
    && FromLe(f[40..48]) == e.mtimeSecs % 0x1_0000_0000_0000_0000 && FromLe(f[48..52]) == e.mtimeNanos
    && FromLe(f[52..]) == e.observedGeneration
  }

  lemma EntryParts(t: Text, k: Key, e: CatEntry)
    requires |t.lossy(k)| < TWO16
    ensures EncodeEntry(t, k, e) == Le(2, |t.lossy(k)|) + t.lossy(k) + EncodeFields(e)
  {
    SmallMod(|t.lossy(k)|);
  }

  lemma ThreeParts(a: Bytes, b: Bytes, c: Bytes)
    ensures var all := a + b + c;
            all[..|a|] == a && all[|a|..|a| + |b|] == b && all[|a| + |b|..] == c
  {
  }

  lemma FieldsLayout(e: CatEntry)
    ensures FieldsLie(EncodeFields(e), e)
  {
    var f := EncodeFields(e);
    Widths();
    LeRoundTrip(8, e.size);
    LeRoundTrip(8, Unsigned(e.mtimeSecs));
    LeRoundTrip(4, e.mtimeNanos);
    LeRoundTrip(8, e.observedGeneration);
    assert f[32..40] == Le(8, e.size) && f[40..48] == Le(8, Unsigned(e.mtimeSecs));
    assert f[48..52] == Le(4, e.mtimeNanos) && f[52..] == Le(8, e.observedGeneration);
  }

  // The header as it lies in the file; after it comes the number of entries.
  lemma HeaderLayout(t: Text, d: Decoded, paths: seq<Key>, names: seq<Key>)
    requires (forall k :: k in paths ==> k in d.entries) && (forall k :: k in names ==> k in d.consumers)
    ensures var b := Encode(t, d, paths, names);
            && |b| >= 32 && b[..8] == [83, 78, 84, 88, 67, 65, 84, 49] && b[8..12] == [1, 0, 0, 0]
            && FromLe(b[12..20]) == d.generation && FromLe(b[20..28]) == t.checksum(b[28..])
            && FromLe(b[28..32]) == |d.entries| % 0x1_0000_0000
  {
    var payload := Payload(t, d, paths, names);
    Widths();
    LeRoundTrip(8, d.generation);
    LeRoundTrip(8, t.checksum(payload));
    LeRoundTrip(4, |d.entries| % TWO32);
    VersionBytes();
    FiveParts(MAGIC, Le(4, VERSION), Le(8, d.generation), Le(8, t.checksum(payload)), payload);
    assert payload[..4] == Le(4, |d.entries| % TWO32);
  }

  lemma VersionBytes()
    ensures Le(4, VERSION) == [1, 0, 0, 0]
  {
    assert Le(2, 0) == [0, 0];
    assert Le(3, 0) == [0, 0, 0];
  }

  lemma FiveParts(a: Bytes, b: Bytes, c: Bytes, d: Bytes, e: Bytes)
    requires |a| == 8 && |b| == 4 && |c| == 8 && |d| == 8 && |e| >= 4
    ensures var all := a + b + c + d + e;
            && all[..8] == a && all[8..12] == b && all[12..20] == c && all[20..28] == d && all[28..] == e
            && all[28..32] == e[..4]
  {
  }

  // ---------------------------------------------------------------- decoding

  datatype Parsed<+T> = Done(value: T, rest: Bytes) | Bad(error: CodecError)

  function ReadSlice(cur: Bytes, n: nat): Parsed<Bytes> {
    if |cur| < n then Bad(UnexpectedEof) else Done(cur[..n], cur[n..])
  }

  function ReadU16(cur: Bytes): Parsed<nat> {
    if |cur| < 2 then Bad(UnexpectedEof) else Done(FromLe(cur[..2]), cur[2..])
  }

  function ReadU32(cur: Bytes): Parsed<U32> {
    if |cur| < 4 then Bad(UnexpectedEof) else Done(AsU32(cur[..4]), cur[4..])
  }

  function ReadU64(cur: Bytes): Parsed<U64> {
    if |cur| < 8 then Bad(UnexpectedEof) else Done(AsU64(cur[..8]), cur[8..])
  }

  function AsU32(b: Bytes): U32 requires |b| == 4 { Widths(); FromLe(b) }

  function AsU64(b: Bytes): U64 requires |b| == 8 { Widths(); FromLe(b) }

  // A length-prefixed UTF-8 string.
  function ReadText(t: Text, cur: Bytes): Parsed<Key> {
    var n := ReadU16(cur);
    if n.Bad? then Bad(n.error)
    else
      var s := ReadSlice(n.rest, n.value);
      if s.Bad? then Bad(s.error) else if !t.utf8(s.value) then Bad(BadUtf8) else s
  }

  // The 60 bytes after the path.
  function ReadFields(cur: Bytes): Parsed<CatEntry> {
    if |cur| < 60 then Bad(UnexpectedEof)
    else
      var entry := CatEntry(cur[..32], AsU64(cur[32..40]), Signed(AsU64(cur[40..48])), AsU32(cur[48..52]),
                            AsU64(cur[52..60]));
      Done(entry, cur[60..])
  }

  function ReadEntry(t: Text, cur: Bytes): Parsed<(Key, CatEntry)> {
    var path := ReadText(t, cur);
    if path.Bad? then Bad(path.error)
    else
      var fields := ReadFields(path.rest);
      if fields.Bad? then Bad(fields.error) else Done((path.value, fields.value), fields.rest)
  }

  function ReadConsumer(t: Text, cur: Bytes): Parsed<(Key, U64)> {
    var name := ReadText(t, cur);
    if name.Bad? then Bad(name.error)
    else
      var generation := ReadU64(name.rest);
      if generation.Bad? then Bad(generation.error) else Done((name.value, generation.value), generation.rest)
  }

  // `n` entries, later ones replacing earlier ones with the same path.
  function ReadEntries(t: Text, n: nat, cur: Bytes, acc: map<Key, CatEntry>): Parsed<map<Key, CatEntry>> {
    if n == 0 then Done(acc, cur)
    else
      var e := ReadEntry(t, cur);
      if e.Bad? then Bad(e.error) else ReadEntries(t, n - 1, e.rest, acc[e.value.0 := e.value.1])
  }

  function ReadConsumers(t: Text, n: nat, cur: Bytes, acc: map<Key, U64>): Parsed<map<Key, U64>> {
    if n == 0 then Done(acc, cur)
    else
      var c := ReadConsumer(t, cur);
      if c.Bad? then Bad(c.error) else ReadConsumers(t, n - 1, c.rest, acc[c.value.0 := c.value.1])
  }

  function DecodePayload(t: Text, generation: U64, payload: Bytes): Parsed<Decoded> {
    var n := ReadU32(payload);
    if n.Bad? then Bad(n.error)
    else
      var entries := ReadEntries(t, n.value, n.rest, map[]);
      if entries.Bad? then Bad(entries.error) else DecodeConsumers(t, generation, entries.value, entries.rest)
  }

  function DecodeConsumers(t: Text, generation: U64, entries: map<Key, CatEntry>, cur: Bytes): Parsed<Decoded> {
    var m := ReadU32(cur);
    if m.Bad? then Bad(m.error)
    else
      var consumers := ReadConsumers(t, m.value, m.rest, map[]);
      if consumers.Bad? then Bad(consumers.error)
      else Done(Decoded(generation, entries, consumers.value), consumers.rest)
  }

  function Decode(t: Text, bytes: Bytes): Parsed<Decoded> {
    var magic := ReadSlice(bytes, 8);
    if magic.Bad? then Bad(magic.error)
    else if magic.value != MAGIC then Bad(BadMagic)
    else
      var version := ReadU32(magic.rest);
      if version.Bad? then Bad(version.error)
      else if version.value != VERSION then Bad(BadVersion)
      else
        var generation := ReadU64(version.rest);
        if generation.Bad? then Bad(generation.error)
        else
          var expected := ReadU64(generation.rest);
          if expected.Bad? then Bad(expected.error)
          else if t.checksum(expected.rest) != expected.value then Bad(BadChecksum)
          else DecodePayload(t, generation.value, expected.rest)
  }

  // Whatever is accepted starts with "SNTXCAT1", the version in little-endian
  // form, the generation, and the checksum of all that follows.
  lemma AcceptsOnlySealed(t: Text, bytes: Bytes)
    requires Decode(t, bytes).Done?
    ensures |bytes| >= 28 && bytes[..8] == [83, 78, 84, 88, 67, 65, 84, 49] && bytes[8..12] == [1, 0, 0, 0]
    ensures Decode(t, bytes).value.generation == FromLe(bytes[12..20])
    ensures FromLe(bytes[20..28]) == t.checksum(bytes[28..])
  {
    HeaderParts(bytes);
    FromLeOne(bytes[8..12]);
  }

  lemma HeaderParts(bytes: Bytes)
    requires |bytes| >= 28
    ensures bytes[8..][..4] == bytes[8..12] && bytes[8..][4..] == bytes[12..]
    ensures bytes[12..][..8] == bytes[12..20] && bytes[12..][8..] == bytes[20..]
    ensures bytes[20..][..8] == bytes[20..28] && bytes[20..][8..] == bytes[28..]
  {
  }

  lemma FromLeOne(b: Bytes)
    requires |b| == 4 && FromLe(b) == 1
    ensures b == [1, 0, 0, 0]
  {
    assert FromLe(b[1..]) == b[1..][0] + 256 * FromLe(b[1..][1..]);
    assert FromLe(b[1..][1..]) == b[1..][1..][0] + 256 * FromLe(b[1..][1..][1..]);
  }

  // ---------------------------------------------------------------- round trip

  lemma SliceBack(a: Bytes, rest: Bytes)
    ensures ReadSlice(a + rest, |a|) == Done(a, rest)
  {
    assert (a + rest)[..|a|] == a && (a + rest)[|a|..] == rest;
  }

  lemma Back16(x: nat, rest: Bytes)
    requires x < TWO16
    ensures ReadU16(Le(2, x) + rest) == Done(x, rest)
  {
    Widths();
    LeRoundTrip(2, x);
    SliceBack(Le(2, x), rest);
  }

  lemma Back32(x: U32, rest: Bytes)
    ensures ReadU32(Le(4, x) + rest) == Done(x, rest)
  {
    Widths();
    LeRoundTrip(4, x);
    SliceBack(Le(4, x), rest);
  }

  lemma Back64(x: U64, rest: Bytes)
    ensures ReadU64(Le(8, x) + rest) == Done(x, rest)
  {
    Widths();
    LeRoundTrip(8, x);
    SliceBack(Le(8, x), rest);
  }

  lemma TextBack(t: Text, k: Key, rest: Bytes)
    requires t.utf8(k) && |k| < TWO16
    ensures ReadText(t, Le(2, |k|) + k + rest) == Done(k, rest)
  {
    ConcatAssoc(Le(2, |k|), k, rest);
    Back16(|k|, k + rest);
    SliceBack(k, rest);
  }

  lemma FieldsBack(e: CatEntry, rest: Bytes)
    ensures ReadFields(EncodeFields(e) + rest) == Done(e, rest)
  {
    Widths();
    var b := EncodeFields(e) + rest;
    assert b[..32] == e.digest && b[60..] == rest;
    assert b[32..40] == Le(8, e.size) && b[40..48] == Le(8, Unsigned(e.mtimeSecs));
    assert b[48..52] == Le(4, e.mtimeNanos) && b[52..60] == Le(8, e.observedGeneration);
    LeRoundTrip(8, e.size);
    LeRoundTrip(8, Unsigned(e.mtimeSecs));
    LeRoundTrip(4, e.mtimeNanos);
    LeRoundTrip(8, e.observedGeneration);
  }

  lemma EntryBack(t: Text, k: Key, e: CatEntry, rest: Bytes)
    requires TextOk(t) && t.utf8(k) && |k| < TWO16
    ensures ReadEntry(t, EncodeEntry(t, k, e) + rest) == Done((k, e), rest)
  {
    assert t.lossy(k) == k;
    assert EncodeEntry(t, k, e) == Le(2, |k|) + k + EncodeFields(e);
    ConcatAssoc(Le(2, |k|) + k, EncodeFields(e), rest);
    TextBack(t, k, EncodeFields(e) + rest);
    FieldsBack(e, rest);
  }

  lemma ConsumerParts(k: Key, g: U64)
    requires |k| < TWO16
    ensures EncodeConsumer(k, g) == Le(2, |k|) + k + Le(8, g)
  {
    SmallMod(|k|);
  }

  lemma SmallMod(x: nat)
    requires x < TWO16
    ensures x % TWO16 == x
  {
  }

  lemma ConsumerBack(t: Text, k: Key, g: U64, rest: Bytes)
    requires t.utf8(k) && |k| < TWO16
    ensures ReadConsumer(t, EncodeConsumer(k, g) + rest) == Done((k, g), rest)
  {
    ConsumerParts(k, g);
    ConcatAssoc(Le(2, |k|) + k, Le(8, g), rest);
    TextBack(t, k, Le(8, g) + rest);
    Back64(g, rest);
  }

  // A key that survives: valid text, short enough for its length prefix.
  predicate KeyFits(t: Text, k: Key) { t.utf8(k) && |k| < TWO16 }

  function Restrict<V>(m: map<Key, V>, keys: seq<Key>): map<Key, V> { map k | k in keys && k in m :: m[k] }

  lemma RestrictStep<V>(m: map<Key, V>, order: seq<Key>, acc: map<Key, V>)
    requires |order| > 0 && order[0] in m
    ensures acc[order[0] := m[order[0]]] + Restrict(m, order[1..]) == acc + Restrict(m, order)
  {
    assert forall q :: q in order <==> q == order[0] || q in order[1..];
  }

  lemma {:induction false} EntriesBack(t: Text, entries: map<Key, CatEntry>, order: seq<Key>, rest: Bytes,
                                       acc: map<Key, CatEntry>)
    requires TextOk(t) && forall k :: k in order ==> k in entries && KeyFits(t, k)
    ensures ReadEntries(t, |order|, EncodeEntries(t, entries, order) + rest, acc)
              == Done(acc + Restrict(entries, order), rest)
  {
    if |order| == 0 {
      assert acc + Restrict(entries, order) == acc;
    } else {
      var k, more := order[0], order[1..];
      var tail := EncodeEntries(t, entries, more) + rest;
      ConcatAssoc(EncodeEntry(t, k, entries[k]), EncodeEntries(t, entries, more), rest);
      EntryBack(t, k, entries[k], tail);
      EntriesBack(t, entries, more, rest, acc[k := entries[k]]);
      RestrictStep(entries, order, acc);
    }
  }

  lemma {:induction false} ConsumersBack(t: Text, consumers: map<Key, U64>, order: seq<Key>, rest: Bytes,
                                         acc: map<Key, U64>)
    requires forall k :: k in order ==> k in consumers && KeyFits(t, k)
    ensures ReadConsumers(t, |order|, EncodeConsumers(consumers, order) + rest, acc)
              == Done(acc + Restrict(consumers, order), rest)
  {
    if |order| == 0 {
      assert acc + Restrict(consumers, order) == acc;
    } else {
      var k, more := order[0], order[1..];
      var tail := EncodeConsumers(consumers, more) + rest;
      ConcatAssoc(EncodeConsumer(k, consumers[k]), EncodeConsumers(consumers, more), rest);
      ConsumerBack(t, k, consumers[k], tail);
      ConsumersBack(t, consumers, more, rest, acc[k := consumers[k]]);
      RestrictStep(consumers, order, acc);
    }
  }

  lemma OneKeyLess<V>(order: seq<Key>, m: map<Key, V>)
    requires Enumerates(order, m) && |order| > 0
    ensures var n := |order| - 1; Enumerates(order[..n], m - {order[n]}) && |m - {order[n]}| == |m| - 1
  {
    var n := |order| - 1;
    var k := order[n];
    forall q ensures q in order[..n] <==> q in m - {k} {
      if q in order && q != k {
        var i :| 0 <= i < |order| && order[i] == q;
        assert order[..n][i] == q;
      }
    }
    assert (m - {k}).Keys == m.Keys - {k} && k in m.Keys;
  }

  lemma {:induction false} EnumeratesSize<V>(order: seq<Key>, m: map<Key, V>)
    requires Enumerates(order, m)
    ensures |order| == |m|
  {
    if |order| == 0 {
      assert m.Keys == {};
    } else {
      OneKeyLess(order, m);
      EnumeratesSize(order[..|order| - 1], m - {order[|order| - 1]});
    }
  }

  lemma EnumeratesCount<V>(order: seq<Key>, m: map<Key, V>)
    requires Enumerates(order, m)
    ensures |order| == |m| && Restrict(m, order) == m
  {
    EnumeratesSize(order, m);
  }

  // What can be written and read back: every key fits, and the counts fit.
  ghost predicate Fits(t: Text, d: Decoded) {
    && (forall k :: k in d.entries ==> KeyFits(t, k)) && |d.entries| < TWO32
    && (forall k :: k in d.consumers ==> KeyFits(t, k)) && |d.consumers| < TWO32
  }

  lemma AllEntriesBack(t: Text, entries: map<Key, CatEntry>, order: seq<Key>, rest: Bytes)
    requires TextOk(t) && Enumerates(order, entries) && forall k :: k in entries ==> KeyFits(t, k)
    ensures ReadEntries(t, |entries|, EncodeEntries(t, entries, order) + rest, map[]) == Done(entries, rest)
  {
    EnumeratesCount(order, entries);
    EntriesBack(t, entries, order, rest, map[]);
    assert map[] + entries == entries;
  }

  lemma AllConsumersBack(t: Text, consumers: map<Key, U64>, order: seq<Key>)
    requires Enumerates(order, consumers) && forall k :: k in consumers ==> KeyFits(t, k)
    ensures ReadConsumers(t, |consumers|, EncodeConsumers(consumers, order), map[]) == Done(consumers, [])
  {
    EnumeratesCount(order, consumers);
    assert EncodeConsumers(consumers, order) + [] == EncodeConsumers(consumers, order);
    ConsumersBack(t, consumers, order, [], map[]);
    assert map[] + consumers == consumers;
  }

  lemma ConsumerListBack(t: Text, d: Decoded, names: seq<Key>)
    requires Enumerates(names, d.consumers) && (forall k :: k in d.consumers ==> KeyFits(t, k)) && |d.consumers| < TWO32
    ensures DecodeConsumers(t, d.generation, d.entries, Le(4, |d.consumers|) + EncodeConsumers(d.consumers, names))
              == Done(d, [])
  {
    Back32(|d.consumers|, EncodeConsumers(d.consumers, names));
    AllConsumersBack(t, d.consumers, names);
  }

  lemma PayloadShape(t: Text, d: Decoded, paths: seq<Key>, names: seq<Key>)
    requires (forall k :: k in paths ==> k in d.entries) && (forall k :: k in names ==> k in d.consumers)
    requires |d.entries| < TWO32 && |d.consumers| < TWO32
    ensures Payload(t, d, paths, names)
         == Le(4, |d.entries|)
            + (EncodeEntries(t, d.entries, paths) + (Le(4, |d.consumers|) + EncodeConsumers(d.consumers, names)))
  {
    assert |d.entries| % TWO32 == |d.entries|;
    assert |d.consumers| % TWO32 == |d.consumers|;
  }

  lemma EntryListDone(t: Text, generation: U64, payload: Bytes, n: U32, cur: Bytes, entries: map<Key, CatEntry>,
                      rest: Bytes)
    requires ReadU32(payload) == Done(n, cur) && ReadEntries(t, n, cur, map[]) == Done(entries, rest)
    ensures DecodePayload(t, generation, payload) == DecodeConsumers(t, generation, entries, rest)
  {
  }

  lemma PayloadBack(t: Text, d: Decoded, paths: seq<Key>, names: seq<Key>)
    requires TextOk(t) && Enumerates(paths, d.entries) && Enumerates(names, d.consumers) && Fits(t, d)
    ensures DecodePayload(t, d.generation, Payload(t, d, paths, names)) == Done(d, [])
  {
    var tail := Le(4, |d.consumers|) + EncodeConsumers(d.consumers, names);
    var cur := EncodeEntries(t, d.entries, paths) + tail;
    PayloadShape(t, d, paths, names);
    Back32(|d.entries|, cur);
    AllEntriesBack(t, d.entries, paths, tail);
    ConsumerListBack(t, d, names);
    EntryListDone(t, d.generation, Payload(t, d, paths, names), |d.entries|, cur, d.entries, tail);
  }

  lemma HeaderBack(t: Text, generation: U64, payload: Bytes)
    ensures var bytes := MAGIC + Le(4, VERSION) + Le(8, generation) + Le(8, t.checksum(payload)) + payload;
            Decode(t, bytes) == DecodePayload(t, generation, payload)
  {
    Widths();
    var r3 := Le(8, t.checksum(payload)) + payload;
    var r2 := Le(8, generation) + r3;
    var r1 := Le(4, VERSION) + r2;
    var bytes := MAGIC + Le(4, VERSION) + Le(8, generation) + Le(8, t.checksum(payload)) + payload;
    assert bytes == MAGIC + r1;
    SliceBack(MAGIC, r1);
    Back32(VERSION, r2);
    Back64(generation, r3);
    Back64(t.checksum(payload), payload);
  }

  // ---------------------------------------------------------------- what any decoding gives

  lemma TextFits(t: Text, cur: Bytes)
    ensures ReadText(t, cur).Done? ==> KeyFits(t, ReadText(t, cur).value)
  {
    Widths();
  }

  lemma EntryFits(t: Text, cur: Bytes)
    ensures ReadEntry(t, cur).Done? ==> KeyFits(t, ReadEntry(t, cur).value.0)
  {
    TextFits(t, cur);
  }

  lemma ConsumerFits(t: Text, cur: Bytes)
    ensures ReadConsumer(t, cur).Done? ==> KeyFits(t, ReadConsumer(t, cur).value.0)
  {
    TextFits(t, cur);
  }

  lemma OneMoreKey<V>(m: map<Key, V>, k: Key, v: V)
    ensures |m[k := v]| <= |m| + 1
  {
    assert m[k := v].Keys == m.Keys + {k};
  }

  lemma {:induction false} EntriesFit(t: Text, n: nat, cur: Bytes, acc: map<Key, CatEntry>)
    requires forall k :: k in acc ==> KeyFits(t, k)
    ensures var r := ReadEntries(t, n, cur, acc);
            r.Done? ==> (forall k :: k in r.value ==> KeyFits(t, k)) && |r.value| <= |acc| + n
  {
    if n != 0 {
      var e := ReadEntry(t, cur);
      if e.Done? {
        EntryFits(t, cur);
        OneMoreKey(acc, e.value.0, e.value.1);
        EntriesFit(t, n - 1, e.rest, acc[e.value.0 := e.value.1]);
      }
    }
  }

  lemma {:induction false} ConsumersFit(t: Text, n: nat, cur: Bytes, acc: map<Key, U64>)
    requires forall k :: k in acc ==> KeyFits(t, k)
    ensures var r := ReadConsumers(t, n, cur, acc);
            r.Done? ==> (forall k :: k in r.value ==> KeyFits(t, k)) && |r.value| <= |acc| + n
  {
    if n != 0 {
      var c := ReadConsumer(t, cur);
      if c.Done? {
        ConsumerFits(t, cur);
        OneMoreKey(acc, c.value.0, c.value.1);
        ConsumersFit(t, n - 1, c.rest, acc[c.value.0 := c.value.1]);
      }
    }
  }

  lemma {:induction false} EntriesTake(t: Text, n: nat, cur: Bytes, acc: map<Key, CatEntry>)
    ensures var r := ReadEntries(t, n, cur, acc); r.Done? ==> |r.rest| + 62 * n <= |cur|
  {
    if n != 0 {
      var e := ReadEntry(t, cur);
      if e.Done? {
        EntriesTake(t, n - 1, e.rest, acc[e.value.0 := e.value.1]);
      }
    }
  }

  lemma {:induction false} ConsumersTake(t: Text, n: nat, cur: Bytes, acc: map<Key, U64>)
    ensures var r := ReadConsumers(t, n, cur, acc); r.Done? ==> |r.rest| + 10 * n <= |cur|
  {
    if n != 0 {
      var c := ReadConsumer(t, cur);
      if c.Done? {
        ConsumersTake(t, n - 1, c.rest, acc[c.value.0 := c.value.1]);
      }
    }
  }

  // A file is refused unless it is long enough for all the entries it
  // announces.
  lemma AcceptsOnlyWhole(t: Text, bytes: Bytes)
    requires Decode(t, bytes).Done?
    ensures |bytes| >= 36 && |bytes| >= 36 + 62 * FromLe(bytes[28..32])
  {
    HeaderParts(bytes);
    var payload := bytes[28..];
    assert Decode(t, bytes) == DecodePayload(t, Decode(t, bytes).value.generation, payload);
    assert payload[..4] == bytes[28..32];
    EntriesTake(t, AsU32(payload[..4]), payload[4..], map[]);
  }

  lemma DecodedFits(t: Text, bytes: Bytes)
    ensures Decode(t, bytes).Done? ==> Fits(t, Decode(t, bytes).value)
  {
    Widths();
    if Decode(t, bytes).Done? {
      var payload := bytes[8..][4..][8..][8..];
      var n := ReadU32(payload);
      EntriesFit(t, n.value, n.rest, map[]);
      var entries := ReadEntries(t, n.value, n.rest, map[]);
      var m := ReadU32(entries.rest);
      ConsumersFit(t, m.value, m.rest, map[]);
    }
  }

  // Main codec theorem: reading back what was written gives the catalogue
  // exactly when every key is UTF-8 of at most 65535 bytes and both counts
  // are below 2^32. Outside that the 16-bit and 32-bit prefixes truncate.
  lemma RoundTripIffFits(t: Text, d: Decoded, paths: seq<Key>, names: seq<Key>)
    requires TextOk(t) && Enumerates(paths, d.entries) && Enumerates(names, d.consumers)
    ensures var r := Decode(t, Encode(t, d, paths, names)); r.Done? && r.value == d <==> Fits(t, d)
  {
    if Fits(t, d) {
      HeaderBack(t, d.generation, Payload(t, d, paths, names));
      PayloadBack(t, d, paths, names);
    } else {
      DecodedFits(t, Encode(t, d, paths, names));
    }
  }

  // ---------------------------------------------------------------- the operations

  // Append one record after another to the payload (codec.rs:175-205).
  method WriteCatalogue(t: Text, d: Decoded, paths: seq<Key>, names: seq<Key>) returns (bytes: Bytes)
    requires (forall k :: k in paths ==> k in d.entries) && (forall k :: k in names ==> k in d.consumers)
    ensures bytes == Encode(t, d, paths, names)
  {
    var payload: Bytes := Le(4, |d.entries| % TWO32);
    payload := AppendEntries(t, payload, d.entries, paths);
    payload := payload + Le(4, |d.consumers| % TWO32);
    payload := AppendConsumers(payload, d.consumers, names);
    Nested(Le(4, |d.entries| % TWO32), EncodeEntries(t, d.entries, paths), Le(4, |d.consumers| % TWO32),
           EncodeConsumers(d.consumers, names));
    bytes := MAGIC + Le(4, VERSION) + Le(8, d.generation) + Le(8, t.checksum(payload)) + payload;
  }

  lemma Nested(a: Bytes, b: Bytes, c: Bytes, d: Bytes)
    ensures a + b + c + d == a + (b + (c + d))
  {
  }

  method AppendEntries(t: Text, start: Bytes, entries: map<Key, CatEntry>, order: seq<Key>) returns (payload: Bytes)
    requires forall k :: k in order ==> k in entries
    ensures payload == start + EncodeEntries(t, entries, order)
  {
    payload := start;
    for i := 0 to |order|
      invariant payload + EncodeEntries(t, entries, order[i..]) == start + EncodeEntries(t, entries, order)
    {
      assert order[i..][1..] == order[i + 1..];
      ConcatAssoc(payload, EncodeEntry(t, order[i], entries[order[i]]), EncodeEntries(t, entries, order[i + 1..]));
      payload := payload + EncodeEntry(t, order[i], entries[order[i]]);
    }
    assert order[|order|..] == [];
  }

  method AppendConsumers(start: Bytes, consumers: map<Key, U64>, order: seq<Key>) returns (payload: Bytes)
    requires forall k :: k in order ==> k in consumers
    ensures payload == start + EncodeConsumers(consumers, order)
  {
    payload := start;
    for i := 0 to |order|
      invariant payload + EncodeConsumers(consumers, order[i..]) == start + EncodeConsumers(consumers, order)
    {
      assert order[i..][1..] == order[i + 1..];
      ConcatAssoc(payload, EncodeConsumer(order[i], consumers[order[i]]), EncodeConsumers(consumers, order[i + 1..]));
      payload := payload + EncodeConsumer(order[i], consumers[order[i]]);
    }
    assert order[|order|..] == [];
  }

  // A cursor over the bytes still to be read, advanced in place (codec.rs:216-250).
  class Cursor {
    var cur: Bytes

    constructor (bytes: Bytes)
      ensures cur == bytes
    {
      cur := bytes;
    }

    method Slice(n: nat) returns (r: Parsed<Bytes>)
      modifies this
      ensures r == ReadSlice(old(cur), n)
      ensures cur == if r.Done? then r.rest else old(cur)
    {
      if |cur| < n {
        return Bad(UnexpectedEof);
      }
      var head := cur[..n];
      cur := cur[n..];
      r := Done(head, cur);
    }

    method U16() returns (r: Parsed<nat>)
      modifies this
      ensures r == ReadU16(old(cur)) && (r.Done? ==> cur == r.rest)
    {
      var slice := Slice(2);
      if slice.Bad? { return Bad(slice.error); }
      r := Done(FromLe(slice.value), cur);
    }

    method U32() returns (r: Parsed<U32>)
      modifies this
      ensures r == ReadU32(old(cur)) && (r.Done? ==> cur == r.rest)
    {
      var slice := Slice(4);
      if slice.Bad? { return Bad(slice.error); }
      r := Done(AsU32(slice.value), cur);
    }

    method U64() returns (r: Parsed<U64>)
      modifies this
      ensures r == ReadU64(old(cur)) && (r.Done? ==> cur == r.rest)
    {
      var slice := Slice(8);
      if slice.Bad? { return Bad(slice.error); }
      r := Done(AsU64(slice.value), cur);
    }

    method Text(t: Text) returns (r: Parsed<Key>)
      modifies this
      ensures r == ReadText(t, old(cur)) && (r.Done? ==> cur == r.rest)
    {
      var n := U16();
      if n.Bad? {
        return Bad(n.error);
      }
      var s := Slice(n.value);
      if s.Bad? {
        return Bad(s.error);
      }
      if !t.utf8(s.value) {
        return Bad(BadUtf8);
      }
      r := s;
    }

    // The fields after the path (codec.rs:116-124).
    method Fields() returns (r: Parsed<CatEntry>)
      modifies this
      ensures r == ReadFields(old(cur)) && (r.Done? ==> cur == r.rest)
    {
      ghost var start := cur;
      var digest := Slice(32);
      if digest.Bad? { return Bad(digest.error); }
      var size := U64();
      if size.Bad? { return Bad(size.error); }
      var secs := U64();
      if secs.Bad? { return Bad(secs.error); }
      var nanos := U32();
      if nanos.Bad? { return Bad(nanos.error); }
      var generation := U64();
      if generation.Bad? { return Bad(generation.error); }
      assert start[32..][..8] == start[32..40] && start[32..][8..][..8] == start[40..48];
      assert start[32..][8..][8..][..4] == start[48..52] && start[32..][8..][8..][4..][..8] == start[52..60];
      assert start[32..][8..][8..][4..][8..] == start[60..];
      r := Done(CatEntry(digest.value, size.value, Signed(secs.value), nanos.value, generation.value), cur);
    }
  }

  // codec.rs:105-132
  method NextEntry(t: Text, c: Cursor) returns (r: Parsed<(Key, CatEntry)>)
    modifies c
    ensures r == ReadEntry(t, old(c.cur)) && (r.Done? ==> c.cur == r.rest)
  {
    var path := c.Text(t);
    if path.Bad? { return Bad(path.error); }
    var fields := c.Fields();
    if fields.Bad? { return Bad(fields.error); }
    r := Done((path.value, fields.value), c.cur);
  }

  // codec.rs:137-144
  method NextConsumer(t: Text, c: Cursor) returns (r: Parsed<(Key, U64)>)
    modifies c
    ensures r == ReadConsumer(t, old(c.cur)) && (r.Done? ==> c.cur == r.rest)
  {
    var name := c.Text(t);
    if name.Bad? { return Bad(name.error); }
    var applied := c.U64();
    if applied.Bad? { return Bad(applied.error); }
    r := Done((name.value, applied.value), c.cur);
  }

  // Counted lists (codec.rs:103-149).
  method ReadEntryList(t: Text, n: nat, c: Cursor) returns (r: Parsed<map<Key, CatEntry>>)
    modifies c
    ensures r == ReadEntries(t, n, old(c.cur), map[]) && (r.Done? ==> c.cur == r.rest)
  {
    ghost var start := c.cur;
    var entries: map<Key, CatEntry>, i := map[], 0;
    while i < n
      invariant 0 <= i <= n
      invariant ReadEntries(t, n, start, map[]) == ReadEntries(t, n - i, c.cur, entries)
    {
      var e := NextEntry(t, c);
      if e.Bad? { return Bad(e.error); }
      entries := entries[e.value.0 := e.value.1];
      i := i + 1;
    }
    r := Done(entries, c.cur);
  }

  method ReadConsumerList(t: Text, n: nat, c: Cursor) returns (r: Parsed<map<Key, U64>>)
    modifies c
    ensures r == ReadConsumers(t, n, old(c.cur), map[]) && (r.Done? ==> c.cur == r.rest)
  {
    ghost var start := c.cur;
    var consumers: map<Key, U64>, i := map[], 0;
    while i < n
      invariant 0 <= i <= n
      invariant ReadConsumers(t, n, start, map[]) == ReadConsumers(t, n - i, c.cur, consumers)
    {
      var e := NextConsumer(t, c);
      if e.Bad? { return Bad(e.error); }
      consumers := consumers[e.value.0 := e.value.1];
      i := i + 1;
    }
    r := Done(consumers, c.cur);
  }

  method ReadLists(t: Text, generation: U64, c: Cursor) returns (r: Parsed<Decoded>)
    modifies c
    ensures r == DecodePayload(t, generation, old(c.cur))
  {
    var n := c.U32();
    if n.Bad? { return Bad(n.error); }
    var entries := ReadEntryList(t, n.value, c);
    if entries.Bad? { return Bad(entries.error); }
    var m := c.U32();
    if m.Bad? { return Bad(m.error); }
    var consumers := ReadConsumerList(t, m.value, c);
    if consumers.Bad? { return Bad(consumers.error); }
    r := Done(Decoded(generation, entries.value, consumers.value), c.cur);
  }

  method ReadCatalogue(t: Text, bytes: Bytes) returns (r: Parsed<Decoded>)
    ensures r == Decode(t, bytes)
  {
    var c := new Cursor(bytes);
    var magic := c.Slice(8);
    if magic.Bad? { return Bad(magic.error); }
    if magic.value != MAGIC { return Bad(BadMagic); }
    var version := c.U32();
    if version.Bad? { return Bad(version.error); }
    if version.value != VERSION { return Bad(BadVersion); }
    var generation := c.U64();
    if generation.Bad? { return Bad(generation.error); }
    var expected := c.U64();
    if expected.Bad? { return Bad(expected.error); }
    if t.checksum(c.cur) != expected.value { return Bad(BadChecksum); }
    r := ReadLists(t, generation.value, c);
  }
}
