/** Activation of container records in the native resource mask.
  *
  * The mask is an 8-byte head whose second word counts the tables, followed by the tables themselves:
  * an 8-byte container identity, a word count and that many 8-byte words of enable bits. */
module ResourceMask {
  import opened Foundations

  type byte = b: int | 0 <= b < 256
  type Bytes = seq<byte>

  const WORD := 0x1_0000_0000

  // ---------------------------------------------------------------- little-endian integers

  function Number(d: Bytes): nat {
    if d == [] then 0 else d[0] as int + 256 * Number(d[1..])
  }

  function Packed(n: nat, width: nat): (d: Bytes)
    ensures |d| == width
  {
    if width == 0 then [] else [n % 256] + Packed(n / 256, width - 1)
  }

  function Limit(width: nat): nat {
    if width == 0 then 1 else 256 * Limit(width - 1)
  }

  lemma {:induction false} PackedReads(n: nat, width: nat)
    requires n < Limit(width)
    ensures Number(Packed(n, width)) == n
  {
    if width > 0 {
      assert n / 256 < Limit(width - 1);
      PackedReads(n / 256, width - 1);
      assert Packed(n, width)[1..] == Packed(n / 256, width - 1);
    }
  }

  lemma {:induction false} ReadPacks(d: Bytes)
    ensures Number(d) < Limit(|d|) && Packed(Number(d), |d|) == d
  {
    if d != [] {
      ReadPacks(d[1..]);
      assert Number(d) % 256 == d[0] && Number(d) / 256 == Number(d[1..]);
    }
  }

  lemma Limits()
    ensures Limit(4) == WORD && Limit(8) == WORD * WORD
  {
    assert Limit(2) == 65536;
    assert Limit(6) == 65536 * Limit(4);
  }

  function U32(d: Bytes, at: nat): nat
    requires at + 4 <= |d|
  {
    Number(d[at..at + 4])
  }

  function Pack32(n: nat): (d: Bytes)
    requires n < WORD
    ensures |d| == 4
  {
    Packed(n, 4)
  }

  lemma U32Packed(d: Bytes, at: nat, n: nat)
    requires n < WORD && at + 4 <= |d| && d[at..at + 4] == Pack32(n)
    ensures U32(d, at) == n
  {
    Limits();
    PackedReads(n, 4);
  }

  lemma U32Packs(d: Bytes, at: nat)
    requires at + 4 <= |d|
    ensures U32(d, at) < WORD && Pack32(U32(d, at)) == d[at..at + 4]
  {
    Limits();
    ReadPacks(d[at..at + 4]);
  }

  function U64(d: Bytes, at: nat): nat
    requires at + 8 <= |d|
  {
    Number(d[at..at + 8])
  }

  function Pack64(n: nat): (d: Bytes)
    requires n < WORD * WORD
    ensures |d| == 8
  {
    Packed(n, 8)
  }

  lemma U64Packed(d: Bytes, at: nat, n: nat)
    requires n < WORD * WORD && at + 8 <= |d| && d[at..at + 8] == Pack64(n)
    ensures U64(d, at) == n
  {
    Limits();
    PackedReads(n, 8);
  }

  lemma U64Packs(d: Bytes, at: nat)
    requires at + 8 <= |d|
    ensures U64(d, at) < WORD * WORD && Pack64(U64(d, at)) == d[at..at + 8]
  {
    Limits();
    ReadPacks(d[at..at + 8]);
  }

  /** The first byte counts ones, each later one 256 times as much as the one before. */
  lemma U32Means(d: Bytes, at: nat)
    requires at + 4 <= |d|
    ensures U32(d, at) ==
              (d[at] as int) + 256 * (d[at + 1] as int) + 65536 * (d[at + 2] as int) + 16777216 * (d[at + 3] as int)
  {
    var w := d[at..at + 4];
    var w1, w2, w3 := w[1..], w[2..], w[3..];
    assert w1[1..] == w2 && w2[1..] == w3 && w3[1..] == [];
    assert Number(w3) == w3[0] as int;
    assert Number(w2) == w2[0] as int + 256 * Number(w3);
    assert Number(w1) == w1[0] as int + 256 * Number(w2);
  }

  lemma {:induction false} NumberJoins(low: Bytes, high: Bytes)
    ensures Number(low + high) == Number(low) + Limit(|low|) * Number(high)
  {
    if low == [] {
      assert low + high == high;
    } else {
      NumberJoins(low[1..], high);
      assert (low + high)[1..] == low[1..] + high;
      assert 256 * (Limit(|low| - 1) * Number(high)) == Limit(|low|) * Number(high);
    }
  }

  lemma U64Means(d: Bytes, at: nat)
    requires at + 8 <= |d|
    ensures U64(d, at) == U32(d, at) + 4294967296 * U32(d, at + 4)
  {
    assert d[at..at + 8] == d[at..at + 4] + d[at + 4..at + 8];
    NumberJoins(d[at..at + 4], d[at + 4..at + 8]);
    Limits();
  }

  // ---------------------------------------------------------------- tables

  datatype Table = Table(head: Bytes, bits: Bytes)

  predicate ValidTable(t: Table) {
    |t.head| == 8 && |t.bits| % 8 == 0 && |t.bits| / 8 < WORD
  }

  predicate ValidTables(ts: seq<Table>) {
    forall i | 0 <= i < |ts| :: ValidTable(ts[i])
  }

  function Encode(t: Table): (d: Bytes)
    requires ValidTable(t)
    ensures |d| == 12 + |t.bits|
  {
    t.head + Pack32(|t.bits| / 8) + t.bits
  }

  function EncodeAll(ts: seq<Table>): Bytes
    requires ValidTables(ts)
  {
    if ts == [] then [] else Encode(ts[0]) + EncodeAll(ts[1..])
  }

  /** The tables that fill `d` exactly, if it holds `count` of them. */
  function Parse(d: Bytes, count: nat): Option<seq<Table>> {
    if count == 0 then
      if d == [] then Some([]) else None
    else if |d| < 12 || 12 + 8 * U32(d, 8) > |d| then None
    else
      var end := 12 + 8 * U32(d, 8);
      var rest := Parse(d[end..], count - 1);
      if rest.None? then None else Some([Table(d[..8], d[12..end])] + rest.value)
  }

  lemma {:induction false} ParseEncoded(ts: seq<Table>)
    requires ValidTables(ts)
    ensures Parse(EncodeAll(ts), |ts|) == Some(ts)
  {
    if ts != [] {
      var d, t := EncodeAll(ts), ts[0];
      var n := |t.bits| / 8;
      assert d[8..12] == Pack32(n);
      U32Packed(d, 8, n);
      assert d[..8] == t.head && d[12..12 + 8 * n] == t.bits;
      assert d[12 + 8 * n..] == EncodeAll(ts[1..]);
      ParseEncoded(ts[1..]);
      assert [t] + ts[1..] == ts;
    }
  }

  lemma WholeWords(words: nat)
    ensures 8 * words % 8 == 0 && 8 * words / 8 == words
  {}

  lemma Reassemble(d: Bytes, end: nat)
    requires 12 <= end <= |d|
    ensures d[..8] + d[8..12] + d[12..end] == d[..end]
  {}

  lemma FirstEncoded(d: Bytes)
    requires |d| >= 12 && 12 + 8 * U32(d, 8) <= |d|
    ensures var end := 12 + 8 * U32(d, 8);
            var t := Table(d[..8], d[12..end]);
            ValidTable(t) && Encode(t) == d[..end]
  {
    var words := U32(d, 8);
    var t := Table(d[..8], d[12..12 + 8 * words]);
    U32Packs(d, 8);
    WholeWords(words);
    assert |t.bits| / 8 == words;
    assert Encode(t) == d[..8] + Pack32(words) + d[12..12 + 8 * words];
    Reassemble(d, 12 + 8 * words);
  }

  /** Parsing at least one table parses the first and then the rest. */
  lemma ParsedFirst(d: Bytes, count: nat) returns (end: nat, rest: seq<Table>)
    requires 0 < count && Parse(d, count).Some?
    ensures |d| >= 12 && end == 12 + 8 * U32(d, 8) <= |d|
    ensures Parse(d[end..], count - 1) == Some(rest) && Parse(d, count).value == [Table(d[..8], d[12..end])] + rest
  {
    end := 12 + 8 * U32(d, 8);
    rest := Parse(d[end..], count - 1).value;
  }

  lemma EncodeFirst(t: Table, rest: seq<Table>)
    requires ValidTable(t) && ValidTables(rest)
    ensures ValidTables([t] + rest) && EncodeAll([t] + rest) == Encode(t) + EncodeAll(rest)
  {
    var ts := [t] + rest;
    assert ts[0] == t && ts[1..] == rest;
  }

  lemma {:induction false} EncodeParsed(d: Bytes, count: nat)
    requires Parse(d, count).Some?
    ensures var ts := Parse(d, count).value;
            |ts| == count && ValidTables(ts) && EncodeAll(ts) == d
  {
    if count > 0 {
      var end, rest := ParsedFirst(d, count);
      EncodeParsed(d[end..], count - 1);
      FirstEncoded(d);
      EncodeFirst(Table(d[..8], d[12..end]), rest);
      assert d == d[..end] + d[end..];
    }
  }

  /** The bytes that `ts` takes up. */
  function Extent(ts: seq<Table>): nat {
    if ts == [] then 0 else 12 + |ts[0].bits| + Extent(ts[1..])
  }

  /** Where table `i` starts in a mask that holds `ts`. */
  function OffsetOf(ts: seq<Table>, i: nat): nat
    requires i <= |ts|
  {
    8 + Extent(ts[..i])
  }

  lemma {:induction false} ExtentAppend(a: seq<Table>, b: seq<Table>)
    ensures Extent(a + b) == Extent(a) + Extent(b)
  {
    if a == [] {
      assert a + b == b;
    } else {
      assert (a + b)[1..] == a[1..] + b;
      ExtentAppend(a[1..], b);
    }
  }

  lemma NextOffset(ts: seq<Table>, i: nat)
    requires i < |ts|
    ensures OffsetOf(ts, i + 1) == OffsetOf(ts, i) + 12 + |ts[i].bits|
  {
    assert ts[..i + 1] == ts[..i] + [ts[i]];
    ExtentAppend(ts[..i], [ts[i]]);
    assert Extent([ts[i]]) == 12 + |ts[i].bits| + Extent([ts[i]][1..]);
  }

  /** The first table follows the head, and each later one the table before it: an identity, a word count and the words. */
  lemma TablesFollow(ts: seq<Table>, i: nat)
    requires i < |ts|
    ensures OffsetOf(ts, 0) == 8 && OffsetOf(ts, i + 1) == OffsetOf(ts, i) + 12 + |ts[i].bits|
  {
    NextOffset(ts, i);
    assert ts[..0] == [];
  }

  lemma {:induction false} OffsetsAscend(ts: seq<Table>, i: nat, j: nat)
    requires i < j <= |ts|
    ensures OffsetOf(ts, i) < OffsetOf(ts, j)
  {
    NextOffset(ts, j - 1);
    if i < j - 1 { OffsetsAscend(ts, i, j - 1); }
  }

  lemma {:induction false} EncodeAppend(a: seq<Table>, b: seq<Table>)
    requires ValidTables(a) && ValidTables(b)
    ensures ValidTables(a + b) && EncodeAll(a + b) == EncodeAll(a) + EncodeAll(b)
  {
    if a == [] {
      assert a + b == b;
    } else {
      EncodeAppend(a[1..], b);
      var c := a + b;
      assert c[0] == a[0] && c[1..] == a[1..] + b;
      assert EncodeAll(c) == Encode(a[0]) + EncodeAll(c[1..]);
    }
  }

  lemma {:induction false} ExtentIsLength(ts: seq<Table>)
    requires ValidTables(ts)
    ensures Extent(ts) == |EncodeAll(ts)|
  {
    if ts != [] { ExtentIsLength(ts[1..]); }
  }

  /** `mask` is a well-formed mask holding exactly `ts`. */
  ghost predicate Holds(mask: Bytes, ts: seq<Table>) {
    && |mask| >= 8 && |ts| == U32(mask, 4) && ValidTables(ts)
    && mask[8..] == EncodeAll(ts)
  }

  lemma HoldsIsParse(mask: Bytes, ts: seq<Table>)
    requires |mask| >= 8
    ensures Holds(mask, ts) <==> Parse(mask[8..], U32(mask, 4)) == Some(ts)
  {
    if Holds(mask, ts) {
      ParseEncoded(ts);
    }
    if Parse(mask[8..], U32(mask, 4)) == Some(ts) {
      EncodeParsed(mask[8..], U32(mask, 4));
    }
  }

  lemma FirstTable(d: Bytes, ts: seq<Table>)
    requires ValidTables(ts) && ts != [] && d == EncodeAll(ts)
    ensures |d| >= 12 + |ts[0].bits|
    ensures d[..8] == ts[0].head && 8 * U32(d, 8) == |ts[0].bits| && d[12..12 + |ts[0].bits|] == ts[0].bits
  {
    var n := |ts[0].bits| / 8;
    assert d[8..12] == Pack32(n);
    U32Packed(d, 8, n);
  }

  lemma TailEncoded(mask: Bytes, ts: seq<Table>, i: nat)
    requires Holds(mask, ts) && i <= |ts|
    ensures 8 <= OffsetOf(ts, i) <= |mask| && mask[OffsetOf(ts, i)..] == EncodeAll(ts[i..])
  {
    var at := OffsetOf(ts, i);
    ExtentIsLength(ts[..i]);
    assert ts == ts[..i] + ts[i..];
    EncodeAppend(ts[..i], ts[i..]);
    assert mask[at..] == mask[8..][at - 8..];
  }

  lemma SliceOfSlice(d: Bytes, a: nat, b: nat, i: nat, j: nat)
    requires a <= b <= |d| && i <= j <= b - a
    ensures d[a..b][i..j] == d[a + i..a + j]
  {
    forall k | 0 <= k < j - i ensures d[a..b][i..j][k] == d[a + i..a + j][k] {
      assert d[a..b][i + k] == d[a + (i + k)];
    }
  }

  lemma TailSlice(d: Bytes, at: nat, i: nat, j: nat)
    requires at <= |d| && i <= j <= |d| - at
    ensures d[at..][i..j] == d[at + i..at + j]
  {
    assert d[at..|d|] == d[at..];
    SliceOfSlice(d, at, |d|, i, j);
  }

  /** Reading table `i` at its offset. */
  lemma TableAt(mask: Bytes, ts: seq<Table>, i: nat)
    requires Holds(mask, ts) && i < |ts|
    ensures var at := OffsetOf(ts, i);
            var end := at + 12 + |ts[i].bits|;
            && end == OffsetOf(ts, i + 1) <= |mask|
            && mask[at..at + 8] == ts[i].head
            && 8 * U32(mask, at + 8) == |ts[i].bits|
            && mask[at + 12..end] == ts[i].bits
  {
    var at := OffsetOf(ts, i);
    NextOffset(ts, i);
    TailEncoded(mask, ts, i);
    var d := mask[at..];
    FirstTable(d, ts[i..]);
    TailSlice(mask, at, 0, 8);
    TailSlice(mask, at, 8, 12);
    TailSlice(mask, at, 12, 12 + |ts[i].bits|);
  }

  lemma LastOffset(mask: Bytes, ts: seq<Table>)
    requires Holds(mask, ts)
    ensures OffsetOf(ts, |ts|) == |mask| == 8 + Extent(ts)
  {
    ExtentIsLength(ts);
    assert ts[..|ts|] == ts;
  }

  // ---------------------------------------------------------------- bits

  predicate Bit(b: nat, k: nat) {
    if k == 0 then b % 2 == 1 else Bit(b / 2, k - 1)
  }

  /** The bitwise or of `b` with a single bit. */
  function OrBit(b: nat, k: nat): nat {
    if k == 0 then (if b % 2 == 1 then b else b + 1) else 2 * OrBit(b / 2, k - 1) + b % 2
  }

  lemma {:induction false} OrBitSets(b: nat, k: nat, j: nat)
    ensures Bit(OrBit(b, k), j) <==> Bit(b, j) || j == k
  {
    if k > 0 {
      assert OrBit(b, k) / 2 == OrBit(b / 2, k - 1) && OrBit(b, k) % 2 == b % 2;
      if j > 0 { OrBitSets(b / 2, k - 1, j - 1); }
    }
  }

  lemma {:induction false} OrBitIdle(b: nat, k: nat)
    requires Bit(b, k)
    ensures OrBit(b, k) == b
  {
    if k > 0 { OrBitIdle(b / 2, k - 1); }
  }

  function Power(width: nat): nat {
    if width == 0 then 1 else 2 * Power(width - 1)
  }

  lemma {:induction false} OrBitBound(b: nat, k: nat, width: nat, limit: nat)
    requires k < width && limit == Power(width) && b < limit
    ensures OrBit(b, k) < limit
  {
    if k > 0 {
      assert limit == 2 * Power(width - 1);
      OrBitBound(b / 2, k - 1, width - 1, Power(width - 1));
    }
  }

  lemma OrBitByte(b: byte, k: nat)
    requires k < 8
    ensures OrBit(b, k) < 256
  {
    OrBitBound(b, k, 8, 256);
  }

  /** Whether record `v` is enabled; records beyond the stored words are not. */
  predicate BitAt(bits: Bytes, v: nat) {
    v / 8 < |bits| && Bit(bits[v / 8], v % 8)
  }

  function WithBit(bits: Bytes, v: nat): Bytes
    requires v / 8 < |bits|
  {
    OrBitByte(bits[v / 8], v % 8);
    bits[v / 8 := OrBit(bits[v / 8], v % 8)]
  }

  lemma WithBitSets(bits: Bytes, v: nat)
    requires v / 8 < |bits|
    ensures |WithBit(bits, v)| == |bits|
    ensures forall w: nat :: BitAt(WithBit(bits, v), w) <==> BitAt(bits, w) || w == v
    ensures BitAt(bits, v) ==> WithBit(bits, v) == bits
  {
    forall w: nat ensures BitAt(WithBit(bits, v), w) <==> BitAt(bits, w) || w == v {
      OrBitSets(bits[v / 8], v % 8, w % 8);
    }
    if BitAt(bits, v) { OrBitIdle(bits[v / 8], v % 8); }
  }

  function Zeros(n: nat): Bytes {
    seq(n, i => 0)
  }

  lemma {:induction false} ZeroBit(k: nat)
    ensures !Bit(0, k)
  {
    if k > 0 { ZeroBit(k - 1); }
  }

  lemma GrownBits(bits: Bytes, n: nat)
    ensures forall v: nat :: BitAt(bits + Zeros(n), v) <==> BitAt(bits, v)
  {
    forall v: nat ensures BitAt(bits + Zeros(n), v) <==> BitAt(bits, v) {
      ZeroBit(v % 8);
    }
  }

  /** Whether record `v` is enabled, by the values of the bytes: eight records to a byte, the first with value 1. */
  ghost predicate Enabled(bits: Bytes, v: nat) {
    v / 8 < |bits| && bits[v / 8] / [1, 2, 4, 8, 16, 32, 64, 128][v % 8] % 2 == 1
  }

  lemma HalfOf(b: nat, k: nat)
    requires 0 < k < 8
    ensures var values := [1, 2, 4, 8, 16, 32, 64, 128];
            values[k] == 2 * values[k - 1] && b / values[k] == b / 2 / values[k - 1]
  {
    if k == 1 { assert b / 2 == b / 2 / 1; }
    else if k == 2 { assert b / 4 == b / 2 / 2; }
    else if k == 3 { assert b / 8 == b / 2 / 4; }
    else if k == 4 { assert b / 16 == b / 2 / 8; }
    else if k == 5 { assert b / 32 == b / 2 / 16; }
    else if k == 6 { assert b / 64 == b / 2 / 32; }
    else { assert b / 128 == b / 2 / 64; }
  }

  lemma {:induction false} BitValue(b: nat, k: nat)
    requires k < 8
    ensures Bit(b, k) <==> b / [1, 2, 4, 8, 16, 32, 64, 128][k] % 2 == 1
    ensures !Bit(b, k) ==> OrBit(b, k) == b + [1, 2, 4, 8, 16, 32, 64, 128][k]
  {
    if k > 0 {
      HalfOf(b, k);
      BitValue(b / 2, k - 1);
    }
  }

  lemma EnabledIsBit(bits: Bytes, v: nat)
    ensures Enabled(bits, v) <==> BitAt(bits, v)
  {
    if v / 8 < |bits| { BitValue(bits[v / 8], v % 8); }
  }

  /** Exactly the requested records are enabled in addition; the words grow only as far as they must. */
  ghost predicate Enables(before: Bytes, after: Bytes, indices: set<nat>) {
    && |before| <= |after| && (|after| - |before|) % 8 == 0
    && (forall v: nat :: BitAt(after, v) <==> BitAt(before, v) || v in indices)
    && (|before| < |after| ==> exists v | v in indices :: |after| - 8 <= v / 8 < |after|)
    && ((forall v | v in indices :: BitAt(before, v)) ==> after == before)
  }

  lemma {:induction false} SameByBits(a: nat, b: nat, width: nat)
    requires a < Power(width) && b < Power(width) && forall k | 0 <= k < width :: Bit(a, k) <==> Bit(b, k)
    ensures a == b
  {
    if width > 0 {
      assert Bit(a, 0) <==> Bit(b, 0);
      forall k | 0 <= k < width - 1 ensures Bit(a / 2, k) <==> Bit(b / 2, k) {
        assert Bit(a, k + 1) <==> Bit(b, k + 1);
      }
      SameByBits(a / 2, b / 2, width - 1);
    }
  }

  lemma SameBytes(a: Bytes, b: Bytes)
    requires |a| == |b| && forall v: nat :: BitAt(a, v) <==> BitAt(b, v)
    ensures a == b
  {
    forall i | 0 <= i < |a| ensures a[i] == b[i] {
      forall k | 0 <= k < 8 ensures Bit(a[i], k) <==> Bit(b[i], k) {
        assert (8 * i + k) / 8 == i && (8 * i + k) % 8 == k;
        assert BitAt(a, 8 * i + k) <==> BitAt(b, 8 * i + k);
      }
      assert Power(8) == 256;
      SameByBits(a[i], b[i], 8);
    }
  }

  /** By the values of the bytes: the requested records are enabled in addition, and enabling one disabled record of the
    * stored words adds its value to its byte and leaves every other byte. */
  ghost predicate EnabledInBytes(before: Bytes, after: Bytes, indices: set<nat>) {
    && (forall v: nat :: Enabled(after, v) <==> Enabled(before, v) || v in indices)
    && forall v: nat | indices == {v} && v / 8 < |before| && !Enabled(before, v) ::
         var sum: int := before[v / 8] as int + [1, 2, 4, 8, 16, 32, 64, 128][v % 8];
         sum < 256 && after == before[v / 8 := sum]
  }

  lemma OneRecordEnabled(before: Bytes, after: Bytes, v: nat)
    requires v / 8 < |before| && !Enabled(before, v) && Enables(before, after, {v})
    ensures var sum: int := before[v / 8] as int + [1, 2, 4, 8, 16, 32, 64, 128][v % 8];
            sum < 256 && after == before[v / 8 := sum]
  {
    EnabledIsBit(before, v);
    BitValue(before[v / 8], v % 8);
    WithBitSets(before, v);
    SameBytes(after, WithBit(before, v));
  }

  lemma EnabledAfter(before: Bytes, after: Bytes, indices: set<nat>)
    requires Enables(before, after, indices)
    ensures forall v: nat :: Enabled(after, v) <==> Enabled(before, v) || v in indices
  {
    forall v: nat ensures Enabled(after, v) <==> Enabled(before, v) || v in indices {
      EnabledIsBit(before, v);
      EnabledIsBit(after, v);
    }
  }

  lemma EnablesInBytes(before: Bytes, after: Bytes, indices: set<nat>)
    requires Enables(before, after, indices)
    ensures EnabledInBytes(before, after, indices)
  {
    EnabledAfter(before, after, indices);
    forall v: nat | indices == {v} && v / 8 < |before| && !Enabled(before, v)
      ensures var sum: int := before[v / 8] as int + [1, 2, 4, 8, 16, 32, 64, 128][v % 8];
              sum < 256 && after == before[v / 8 := sum]
    {
      OneRecordEnabled(before, after, v);
    }
  }

  method Highest(indices: set<nat>) returns (m: nat)
    requires indices != {}
    ensures m in indices && forall v | v in indices :: v <= m
  {
    m :| m in indices;
    var rest := indices - {m};
    while rest != {}
      invariant m in indices && rest <= indices
      invariant forall v | v in indices && v !in rest :: v <= m
      decreases |rest|
    {
      var v :| v in rest;
      rest := rest - {v};
      if v > m { m := v; }
    }
  }

  method Grow(bits: Bytes, indices: set<nat>) returns (grown: Bytes, added: nat)
    requires |bits| % 8 == 0
    ensures grown == bits + Zeros(8 * added)
    ensures forall v | v in indices :: v / 8 < |grown|
    ensures 0 < added ==> exists v | v in indices :: |grown| - 8 <= v / 8 < |grown|
  {
    added := 0;
    if indices != {} {
      var highest := Highest(indices);
      var words := |bits| / 8;
      added := Max(0, (highest + 64) / 64 - words);
      if added > 0 {
        assert |bits| + 8 * added == 8 * ((highest + 64) / 64);
        assert |bits| + 8 * added - 8 <= highest / 8 < |bits| + 8 * added;
      }
    }
    grown := bits + Zeros(8 * added);
  }

  lemma MoreWords(size: nat, added: nat)
    requires size % 8 == 0
    ensures (size + 8 * added) % 8 == 0
  {}

  /** All requested records outside `todo` have been enabled. */
  ghost predicate EnabledSoFar(bits: Bytes, grown: Bytes, after: Bytes, indices: set<nat>, todo: set<nat>) {
    && todo <= indices && |after| == |grown|
    && (forall v: nat :: BitAt(after, v) <==> BitAt(bits, v) || (v in indices && v !in todo))
    && ((forall v | v in indices :: BitAt(bits, v)) ==> after == grown)
  }

  lemma EnabledNext(bits: Bytes, grown: Bytes, after: Bytes, indices: set<nat>, todo: set<nat>, v: nat)
    requires EnabledSoFar(bits, grown, after, indices, todo) && v in todo && v / 8 < |after|
    ensures EnabledSoFar(bits, grown, WithBit(after, v), indices, todo - {v})
  {
    WithBitSets(after, v);
  }

  lemma AllEnabled(bits: Bytes, after: Bytes, indices: set<nat>, added: nat)
    requires |bits| % 8 == 0 && EnabledSoFar(bits, bits + Zeros(8 * added), after, indices, {})
    requires 0 < added ==> exists v | v in indices :: |after| - 8 <= v / 8 < |after|
    ensures Enables(bits, after, indices)
  {
    if added > 0 {
      var v :| v in indices && |after| - 8 <= v / 8 < |after|;
      assert !BitAt(bits, v);
    } else {
      assert bits + Zeros(0) == bits;
    }
  }

  method SetRecords(bits: Bytes, indices: set<nat>) returns (after: Bytes, changed: set<nat>, added: nat)
    requires |bits| % 8 == 0
    ensures Enables(bits, after, indices) && |after| % 8 == 0
    ensures |after| == |bits| + 8 * added
    ensures forall v :: v in changed <==> v in indices && !BitAt(bits, v)
  {
    after, added := Grow(bits, indices);
    ghost var grown := after;
    GrownBits(bits, 8 * added);
    MoreWords(|bits|, added);
    changed := set v | v in indices && !BitAt(after, v);
    var todo := indices;
    while todo != {}
      invariant EnabledSoFar(bits, grown, after, indices, todo)
      decreases |todo|
    {
      var v :| v in todo;
      EnabledNext(bits, grown, after, indices, todo, v);
      todo := todo - {v};
      after := WithBit(after, v);
    }
    AllEnabled(bits, after, indices, added);
  }

  /** Sets the requested bits of one table, reporting which were clear before. */
  method EnableRecords(bits: Bytes, indices: set<nat>) returns (after: Bytes, changed: set<nat>, added: nat)
    requires |bits| % 8 == 0
    ensures Enables(bits, after, indices) && |after| % 8 == 0
    ensures |after| == |bits| + 8 * added
    ensures forall v :: v in changed <==> v in indices && !BitAt(bits, v)
    ensures EnabledInBytes(bits, after, indices)
  {
    after, changed, added := SetRecords(bits, indices);
    EnablesInBytes(bits, after, indices);
  }

  // ---------------------------------------------------------------- rewriting the mask

  /** Records to enable, by the offset of their container's table. */
  type Requests = map<int, set<nat>>

  /** The dictionary takes each old offset to the new one. */
  ghost predicate Relocates(offsets: map<nat, nat>, from: seq<nat>, to: seq<nat>) {
    && |to| <= |from|
    && forall i | 0 <= i < |to| :: from[i] in offsets && offsets[from[i]] == to[i]
  }

  /** What activating one table changed: the records that were disabled, and the words added. */
  datatype Report = Report(changed: set<nat>, added: nat)

  ghost predicate Reports(report: Report, before: Bytes, after: Bytes, indices: set<nat>) {
    && report.changed == set v | v in indices && !BitAt(before, v)
    && |after| == |before| + 8 * report.added
  }

  /** One table with its requests, if it has any, carried out and reported. */
  ghost predicate Served(t: Table, u: Table, at: nat, requests: Requests, report: Report) {
    && u.head == t.head
    && (at in requests ==> Enables(t.bits, u.bits, requests[at]) && Reports(report, t.bits, u.bits, requests[at]))
    && (at !in requests ==> u == t)
  }

  ghost predicate Rewritten(ts: seq<Table>, us: seq<Table>, at: seq<nat>, requests: Requests, reports: map<nat, Report>) {
    && |us| <= |ts| && |at| == |ts| && ValidTables(us)
    && forall i | 0 <= i < |us| :: at[i] in reports && Served(ts[i], us[i], at[i], requests, reports[at[i]])
  }

  /** Where each table starts. */
  function Offsets(ts: seq<Table>): (at: seq<nat>)
    ensures |at| == |ts|
  {
    if ts == [] then [] else Offsets(ts[..|ts| - 1]) + [8 + Extent(ts[..|ts| - 1])]
  }

  function OffsetSet(ts: seq<Table>): set<int> {
    if ts == [] then {} else OffsetSet(ts[..|ts| - 1]) + {8 + Extent(ts[..|ts| - 1])}
  }

  lemma LastOfOffsets(ts: seq<Table>)
    requires ts != []
    ensures var init := ts[..|ts| - 1];
            Offsets(ts) == Offsets(init) + [8 + Extent(init)] && OffsetSet(ts) == OffsetSet(init) + {8 + Extent(init)}
  {}

  lemma {:induction false} OffsetListed(ts: seq<Table>, o: int) returns (i: nat)
    requires o in OffsetSet(ts)
    ensures i < |ts| && Offsets(ts)[i] == o
  {
    var init := ts[..|ts| - 1];
    LastOfOffsets(ts);
    if o in OffsetSet(init) {
      i := OffsetListed(init, o);
      assert Offsets(init)[i] == o;
    } else {
      i := |init|;
    }
  }

  lemma {:induction false} OffsetInSet(ts: seq<Table>, i: nat)
    requires i < |ts|
    ensures Offsets(ts)[i] in OffsetSet(ts)
  {
    var init := ts[..|ts| - 1];
    LastOfOffsets(ts);
    if i < |init| {
      OffsetInSet(init, i);
    }
  }

  lemma OffsetSetHas(ts: seq<Table>, o: int)
    ensures o in OffsetSet(ts) <==> exists i | 0 <= i < |ts| :: Offsets(ts)[i] == o
  {
    if o in OffsetSet(ts) {
      var i := OffsetListed(ts, o);
      assert Offsets(ts)[i] == o;
    }
    forall i: nat | i < |ts| && Offsets(ts)[i] == o ensures o in OffsetSet(ts) {
      OffsetInSet(ts, i);
    }
  }

  lemma {:induction false} OffsetsAre(ts: seq<Table>, i: nat)
    requires i < |ts|
    ensures Offsets(ts)[i] == OffsetOf(ts, i)
  {
    var init := ts[..|ts| - 1];
    if i < |init| {
      OffsetsAre(init, i);
      assert init[..i] == ts[..i];
    }
  }

  lemma OffsetsDistinct(ts: seq<Table>)
    ensures Distinct(Offsets(ts))
  {
    forall i, j | 0 <= i < j < |ts| ensures Offsets(ts)[i] != Offsets(ts)[j] {
      OffsetsAre(ts, i);
      OffsetsAre(ts, j);
      OffsetsAscend(ts, i, j);
    }
  }

  lemma RewrittenFurther(ts: seq<Table>, us: seq<Table>, at: seq<nat>, u: Table, requests: Requests, reports: map<nat, Report>,
                         report: Report)
    requires Rewritten(ts, us, at, requests, reports) && |us| < |ts| && ValidTable(u) && Distinct(at)
    requires Served(ts[|us|], u, at[|us|], requests, report)
    ensures Rewritten(ts, us + [u], at, requests, reports[at[|us|] := report])
  {
    var more := reports[at[|us|] := report];
    var vs := us + [u];
    forall i | 0 <= i < |vs| ensures at[i] in more && Served(ts[i], vs[i], at[i], requests, more[at[i]]) {
      if i < |us| { assert at[i] in reports && Served(ts[i], us[i], at[i], requests, reports[at[i]]); }
    }
  }

  /** A word count has 32 bits, so no record from here on has a place in any table. */
  const RECORDS := 64 * (WORD - 1)

  ghost predicate Countable(indices: set<nat>) {
    forall v | v in indices :: v < RECORDS
  }

  ghost predicate CountableAt(at: nat, requests: Requests) {
    at in requests ==> Countable(requests[at])
  }

  /** Every table's request names records that a table can hold. */
  ghost predicate AllCountable(at: seq<nat>, requests: Requests) {
    forall i | 0 <= i < |at| :: CountableAt(at[i], requests)
  }

  lemma CountableWords(before: Bytes, after: Bytes, indices: set<nat>)
    requires Enables(before, after, indices) && |before| % 8 == 0 && |before| / 8 < WORD
    ensures |after| / 8 < WORD <==> Countable(indices)
  {
    if |after| / 8 < WORD {
      forall v | v in indices ensures v < RECORDS {
        assert BitAt(after, v);
      }
    } else {
      var v :| v in indices && |after| - 8 <= v / 8 < |after|;
      assert v >= RECORDS;
    }
  }

  /** The bits of one table after its requests, if it has any. */
  method RewriteBits(bits: Bytes, at: nat, requests: Requests) returns (after: Bytes, report: Report)
    requires |bits| % 8 == 0 && |bits| / 8 < WORD
    ensures |after| % 8 == 0 && (|after| / 8 < WORD <==> CountableAt(at, requests))
    ensures at in requests ==> Enables(bits, after, requests[at]) && Reports(report, bits, after, requests[at])
    ensures at !in requests ==> after == bits
  {
    after, report := bits, Report({}, 0);
    if at in requests {
      var changed, added;
      after, changed, added := EnableRecords(bits, requests[at]);
      CountableWords(bits, after, requests[at]);
      report := Report(changed, added);
    }
  }

  method RewriteTable(mask: Bytes, ghost ts: seq<Table>, ghost i: nat, position: nat, requests: Requests)
    returns (piece: Bytes, end: nat, fits: bool, report: Report, ghost u: Table)
    requires Holds(mask, ts) && i < |ts| && position == OffsetOf(ts, i)
    ensures end == OffsetOf(ts, i + 1)
    ensures fits ==> ValidTable(u) && piece == Encode(u) && Served(ts[i], u, position, requests, report)
    ensures fits <==> CountableAt(position, requests)
  {
    TableAt(mask, ts, i);
    end := position + 12 + U32(mask, position + 8) * 8;
    var bits;
    bits, report := RewriteBits(mask[position + 12..end], position, requests);
    fits := |bits| / 8 < WORD;
    u := Table(mask[position..position + 8], bits);
    piece := if fits then mask[position..position + 8] + Pack32(|bits| / 8) + bits else [];
  }

  /** The rewriting of the first `|us|` tables of `ts`. */
  datatype Draft = Draft(position: nat, updated: Bytes, offsets: map<nat, nat>, reports: map<nat, Report>)

  ghost predicate Drafted(mask: Bytes, ts: seq<Table>, us: seq<Table>, requests: Requests, draft: Draft)
    requires Holds(mask, ts)
  {
    && |us| <= |ts|
    && draft.position == OffsetOf(ts, |us|)
    && ValidTables(us) && draft.updated == mask[..8] + EncodeAll(us)
    && Relocates(draft.offsets, Offsets(ts), Offsets(us))
    && Rewritten(ts, us, Offsets(ts), requests, draft.reports)
  }

  lemma AppendOffset(us: seq<Table>, u: Table)
    requires ValidTables(us)
    ensures Offsets(us + [u]) == Offsets(us) + [8 + |EncodeAll(us)|]
    ensures OffsetSet(us + [u]) == OffsetSet(us) + {8 + |EncodeAll(us)|}
  {
    ExtentIsLength(us);
    assert (us + [u])[..|us|] == us;
  }

  lemma AppendTable(us: seq<Table>, u: Table)
    requires ValidTables(us) && ValidTable(u)
    ensures ValidTables(us + [u]) && EncodeAll(us + [u]) == EncodeAll(us) + Encode(u)
    ensures Offsets(us + [u]) == Offsets(us) + [8 + |EncodeAll(us)|]
  {
    EncodeAppend(us, [u]);
    assert [u][1..] == [] && EncodeAll([u]) == Encode(u) + EncodeAll([u][1..]);
    AppendOffset(us, u);
  }

  lemma RelocatesFurther(offsets: map<nat, nat>, from: seq<nat>, to: seq<nat>, size: nat)
    requires Relocates(offsets, from, to) && Distinct(from) && |to| < |from|
    ensures Relocates(offsets[from[|to|] := size], from, to + [size])
  {}

  lemma DraftGrows(mask: Bytes, ts: seq<Table>, us: seq<Table>, requests: Requests, draft: Draft, u: Table, report: Report)
    requires Holds(mask, ts) && Drafted(mask, ts, us, requests, draft) && |us| < |ts|
    requires ValidTable(u) && Served(ts[|us|], u, draft.position, requests, report)
    ensures Drafted(mask, ts, us + [u], requests,
                    Draft(OffsetOf(ts, |us| + 1), draft.updated + Encode(u),
                          draft.offsets[draft.position := |draft.updated|], draft.reports[draft.position := report]))
  {
    var at := Offsets(ts);
    OffsetsAre(ts, |us|);
    OffsetsDistinct(ts);
    AppendTable(us, u);
    assert draft.updated + Encode(u) == mask[..8] + (EncodeAll(us) + Encode(u));
    RelocatesFurther(draft.offsets, at, Offsets(us), |draft.updated|);
    RewrittenFurther(ts, us, at, u, requests, draft.reports, report);
  }

  lemma HeadKept(mask: Bytes, updated: Bytes, body: Bytes)
    requires |mask| >= 8 && updated == mask[..8] + body
    ensures updated[..8] == mask[..8] && updated[8..] == body && U32(updated, 4) == U32(mask, 4)
  {}

  lemma DraftDone(mask: Bytes, ts: seq<Table>, us: seq<Table>, requests: Requests, draft: Draft)
    requires Holds(mask, ts) && Drafted(mask, ts, us, requests, draft) && |us| == |ts|
    ensures Holds(draft.updated, us) && draft.updated[..8] == mask[..8]
  {
    HeadKept(mask, draft.updated, EncodeAll(us));
  }

  method RewriteMask(mask: Bytes, ghost ts: seq<Table>, requests: Requests)
    returns (draft: Draft, fits: bool, ghost us: seq<Table>)
    requires Holds(mask, ts)
    ensures fits ==> |us| == |ts| && Drafted(mask, ts, us, requests, draft)
    ensures fits ==> Holds(draft.updated, us) && draft.updated[..8] == mask[..8]
    ensures fits <==> AllCountable(Offsets(ts), requests)
  {
    draft, us := Draft(8, mask[..8], map[], map[]), [];
    ghost var at := Offsets(ts);
    assert Drafted(mask, ts, us, requests, draft);
    for i := 0 to U32(mask, 4)
      invariant |us| == i && Drafted(mask, ts, us, requests, draft)
      invariant AllCountable(at[..i], requests)
    {
      OffsetsAre(ts, i);
      assert at[..i + 1] == at[..i] + [at[i]];
      var piece, end, ok, report;
      ghost var u;
      piece, end, ok, report, u := RewriteTable(mask, ts, i, draft.position, requests);
      if !ok {
        return draft, false, [];
      }
      DraftGrows(mask, ts, us, requests, draft, u, report);
      draft := Draft(end, draft.updated + piece, draft.offsets[draft.position := |draft.updated|],
                     draft.reports[draft.position := report]);
      us := us + [u];
    }
    fits := true;
    assert at[..|ts|] == at;
    DraftDone(mask, ts, us, requests, draft);
  }

  // ---------------------------------------------------------------- the container that carries the mask

  /** A resource container and the index row of its mask: payload position, stored size, decoded size. */
  datatype Container = Container(bytes: Bytes, row: nat, flags: nat) {
    function At(): nat requires row + 24 <= |bytes| { U64(bytes, row) }
    function Size(): nat requires row + 24 <= |bytes| { U64(bytes, row + 8) }
    function Decoded(): nat requires row + 24 <= |bytes| { U64(bytes, row + 16) }

    /** The index row and the payload it names lie inside the container. */
    ghost predicate Valid() {
      row + 24 <= |bytes| && At() + Size() <= |bytes| && Decoded() == Size()
    }

    /** The index row lies outside the payload. */
    ghost predicate Apart() requires Valid() {
      At() + Size() <= row || row + 24 <= At()
    }

    function Mask(): Bytes requires Valid() { bytes[At()..At() + Size()] }
  }

  function RowBytes(at: nat, size: nat): (d: Bytes)
    requires at < WORD * WORD && size < WORD * WORD
    ensures |d| == 24
  {
    Pack64(at) + Pack64(size) + Pack64(size)
  }

  lemma ThreePieces(w: Bytes, x: Bytes, y: Bytes, z: Bytes)
    requires |x| == |y| == |z| == 8 && w == x + y + z
    ensures w[0..8] == x && w[8..16] == y && w[16..24] == z
  {}

  lemma RowReads(c: Container, at: nat, size: nat)
    requires at < WORD * WORD && size < WORD * WORD
    requires c.row + 24 <= |c.bytes| && c.bytes[c.row..c.row + 24] == RowBytes(at, size)
    ensures c.At() == at && c.Size() == size && c.Decoded() == size
  {
    var d, r := c.bytes, c.row;
    ThreePieces(d[r..r + 24], Pack64(at), Pack64(size), Pack64(size));
    SliceOfSlice(d, r, r + 24, 0, 8);
    SliceOfSlice(d, r, r + 24, 8, 16);
    SliceOfSlice(d, r, r + 24, 16, 24);
    U64Packed(d, r, at);
    U64Packed(d, r + 8, size);
    U64Packed(d, r + 16, size);
  }

  lemma RowRestored(c: Container)
    requires c.Valid()
    ensures c.At() < WORD * WORD && c.Size() < WORD * WORD
    ensures RowBytes(c.At(), c.Size()) == c.bytes[c.row..c.row + 24]
  {
    var d, r := c.bytes, c.row;
    U64Packs(d, r);
    U64Packs(d, r + 8);
    U64Packs(d, r + 16);
    assert d[r..r + 24] == d[r..r + 8] + d[r + 8..r + 16] + d[r + 16..r + 24];
  }

  /** Overwrites from `at` on, extending the bytes where necessary. */
  function Splice(d: Bytes, at: nat, piece: Bytes): (e: Bytes)
    requires at <= |d|
    ensures |e| == Max(|d|, at + |piece|)
    ensures e[at..at + |piece|] == piece
    ensures forall k | 0 <= k < |d| && !(at <= k < at + |piece|) :: e[k] == d[k]
  {
    d[..at] + piece + (if at + |piece| <= |d| then d[at + |piece|..] else [])
  }

  /** Where the rewritten mask goes: in place when it fits or ends the container, else aligned past the end. */
  function Destination(c: Container, length: nat): (at: nat)
    requires c.Valid()
    ensures at == c.At() || |c.bytes| <= at < |c.bytes| + 16
    ensures at == c.At() ==> length == c.Size() || c.At() + c.Size() == |c.bytes|
  {
    if length != c.Size() && c.At() + c.Size() != |c.bytes| then (|c.bytes| + 15) / 16 * 16 else c.At()
  }

  /** The new payload leaves the index row alone: it goes past the end, or it stays where the old one did. */
  lemma RowUntouched(c: Container, at: nat, length: nat)
    requires c.Valid() && at == Destination(c, length) && (c.Apart() || at != c.At())
    ensures at + length <= c.row || c.row + 24 <= at
  {}

  /** The bytes after the payload is written and before the index row is. */
  function Payload(c: Container, updated: Bytes): (d: Bytes)
    requires c.Valid()
    ensures |c.bytes| <= |d| <= |c.bytes| + |updated| + 16
  {
    var at := Destination(c, |updated|);
    Splice(c.bytes + Zeros(if at > |c.bytes| then at - |c.bytes| else 0), at, updated)
  }

  lemma PayloadFrame(c: Container, updated: Bytes)
    requires c.Valid()
    ensures var at, d := Destination(c, |updated|), Payload(c, updated);
            && at + |updated| <= |d| && d[at..at + |updated|] == updated
            && forall k | 0 <= k < |c.bytes| && !(at <= k < at + |updated|) :: d[k] == c.bytes[k]
  {}

  /** The index row stores the new place and length as 64-bit numbers. */
  predicate Placeable(c: Container, length: nat)
    requires c.Valid()
  {
    Destination(c, length) < WORD * WORD && length < WORD * WORD
  }

  function Placed(c: Container, updated: Bytes): Container
    requires c.Valid() && Placeable(c, |updated|)
  {
    c.(bytes := Splice(Payload(c, updated), c.row, RowBytes(Destination(c, |updated|), |updated|)))
  }

  lemma PlacedValid(c: Container, updated: Bytes)
    requires c.Valid() && Placeable(c, |updated|)
    ensures var d := Placed(c, updated);
            |d.bytes| == |Payload(c, updated)| && d.Valid() && d.At() == Destination(c, |updated|) && d.Size() == |updated|
  {
    PayloadFrame(c, updated);
    RowReads(Placed(c, updated), Destination(c, |updated|), |updated|);
  }

  /** `under` at `at` and `over` at `row` hold the same bytes where they overlap. */
  ghost predicate Agrees(under: Bytes, at: nat, over: Bytes, row: nat) {
    forall k | 0 <= k < |under| && row <= at + k < row + |over| :: under[k] == over[at + k - row]
  }

  /** Where the row, written last, falls on the payload, the payload already holds the row's bytes. */
  ghost predicate RowAgrees(c: Container, updated: Bytes)
    requires c.Valid() && Placeable(c, |updated|)
  {
    var at := Destination(c, |updated|);
    Agrees(updated, at, RowBytes(at, |updated|), c.row)
  }

  lemma SpliceOver(d: Bytes, at: nat, under: Bytes, row: nat, over: Bytes)
    requires row + |over| <= |d| && at + |under| <= |d| && d[at..at + |under|] == under
    ensures |Splice(d, row, over)| == |d|
    ensures Splice(d, row, over)[at..at + |under|] == under <==> Agrees(under, at, over, row)
  {
    var e := Splice(d, row, over);
    var seen := e[at..at + |under|];
    forall k | 0 <= k < |under| ensures seen[k] == if row <= at + k < row + |over| then over[at + k - row] else under[k] {
      assert seen[k] == e[at + k] && d[at..at + |under|][k] == d[at + k];
      if row <= at + k < row + |over| { assert e[row..row + |over|][at + k - row] == e[at + k]; }
    }
  }

  lemma PlacedSlice(c: Container, updated: Bytes)
    requires c.Valid() && Placeable(c, |updated|)
    ensures var at, d := Destination(c, |updated|), Placed(c, updated).bytes;
            at + |updated| <= |d| && (d[at..at + |updated|] == updated <==> RowAgrees(c, updated))
  {
    var at := Destination(c, |updated|);
    PayloadFrame(c, updated);
    SpliceOver(Payload(c, updated), at, updated, c.row, RowBytes(at, |updated|));
  }

  lemma PlacedMask(c: Container, updated: Bytes)
    requires c.Valid() && Placeable(c, |updated|)
    ensures Placed(c, updated).Valid()
    ensures Placed(c, updated).Mask() == updated <==> RowAgrees(c, updated)
  {
    PlacedValid(c, updated);
    PlacedSlice(c, updated);
  }

  lemma PlacedFrame(c: Container, updated: Bytes)
    requires c.Valid() && Placeable(c, |updated|)
    ensures var d, at := Placed(c, updated), Destination(c, |updated|);
            && |c.bytes| <= |d.bytes|
            && forall k | 0 <= k < |c.bytes| && !(c.row <= k < c.row + 24) && !(at <= k < at + |updated|) ::
                 d.bytes[k] == c.bytes[k]
  {
    PayloadFrame(c, updated);
  }

  lemma SpliceUndone(d: Bytes, at: nat, under: Bytes, row: nat, over: Bytes)
    requires at + |under| <= |d| && row + |over| <= |d| && over == d[row..row + |over|]
    requires forall k | 0 <= k < |under| && !(row <= at + k < row + |over|) :: under[k] == d[at + k]
    ensures Splice(Splice(d, at, under), row, over) == d
  {
    var e := Splice(d, at, under);
    var f := Splice(e, row, over);
    forall k | 0 <= k < |d| ensures f[k] == d[k] {
      if row <= k < row + |over| {
        assert f[row..row + |over|][k - row] == over[k - row] == d[k];
      } else {
        assert f[k] == e[k];
        if at <= k < at + |under| { assert e[at..at + |under|][k - at] == under[k - at]; }
      }
    }
  }

  /** Changes of the mask that all fall under the index row are undone when the row is written. */
  lemma RowUndoes(c: Container, updated: Bytes)
    requires c.Valid() && |updated| == c.Size()
    requires forall k | 0 <= k < |updated| && !(c.row <= c.At() + k < c.row + 24) :: updated[k] == c.bytes[c.At() + k]
    ensures Placeable(c, |updated|) && Placed(c, updated) == c
  {
    RowRestored(c);
    assert c.bytes + Zeros(0) == c.bytes;
    SpliceUndone(c.bytes, c.At(), updated, c.row, RowBytes(c.At(), c.Size()));
  }

  lemma PlacedUnchanged(c: Container, updated: Bytes)
    requires c.Valid() && updated == c.Mask()
    ensures Placeable(c, |updated|) && Placed(c, updated) == c
  {
    forall k | 0 <= k < |updated| ensures updated[k] == c.bytes[c.At() + k] {}
    RowUndoes(c, updated);
  }

  lemma PlacedClear(c: Container, updated: Bytes)
    requires c.Valid() && Placeable(c, |updated|) && (c.Apart() || Destination(c, |updated|) != c.At())
    ensures Placed(c, updated).Valid() && Placed(c, updated).Apart() && RowAgrees(c, updated)
  {
    PlacedValid(c, updated);
    RowUntouched(c, Destination(c, |updated|), |updated|);
  }

  /** In place when the length is the same or the old payload ends the container, otherwise at the next multiple of
    * sixteen from the end. */
  ghost predicate MovesTo(from: nat, size: nat, end: nat, length: nat, to: nat) {
    if length == size || from + size == end then to == from else to % 16 == 0 && end <= to < end + 16
  }

  /** The bytes at their place as far as the row leaves them, zeros in front of them, and the rest no longer than needed. */
  ghost predicate WrittenAt(before: Bytes, piece: Bytes, row: nat, after: Bytes, to: nat) {
    && |after| == (if |before| < to + |piece| then to + |piece| else |before|)
    && (forall k | 0 <= k < |piece| && !(row <= to + k < row + 24) :: after[to + k] == piece[k])
    && (forall k | |before| <= k < to :: after[k] == 0)
  }

  /** The place and the sizes that the row names, and all bytes, without reference to how they are computed. */
  ghost predicate Relocated(c: Container, updated: Bytes, d: Container)
    requires c.row + 24 <= |c.bytes| && c.row == d.row && c.row + 24 <= |d.bytes|
  {
    && MovesTo(U64(c.bytes, c.row), U64(c.bytes, c.row + 8), |c.bytes|, |updated|, U64(d.bytes, d.row))
    && U64(d.bytes, d.row + 8) == |updated| == U64(d.bytes, d.row + 16)
    && WrittenAt(c.bytes, updated, c.row, d.bytes, U64(d.bytes, d.row))
  }

  lemma DestinationMoves(c: Container, length: nat)
    requires c.Valid()
    ensures MovesTo(c.At(), c.Size(), |c.bytes|, length, Destination(c, length))
  {}

  lemma SplicedTwice(before: Bytes, pad: nat, at: nat, piece: Bytes, row: nat, over: Bytes)
    requires row + 24 <= |before| && |over| == 24 && at <= |before| + pad && (pad > 0 ==> at == |before| + pad)
    ensures WrittenAt(before, piece, row, Splice(Splice(before + Zeros(pad), at, piece), row, over), at)
  {
    var grown := before + Zeros(pad);
    var d := Splice(grown, at, piece);
    var e := Splice(d, row, over);
    forall k | 0 <= k < |piece| && !(row <= at + k < row + 24) ensures e[at + k] == piece[k] {
      assert d[at..at + |piece|][k] == piece[k];
      assert e[at + k] == d[at + k];
    }
    forall k | |before| <= k < at ensures e[k] == 0 {
      assert grown[k] == 0 && d[k] == grown[k] && e[k] == d[k];
    }
  }

  lemma PlacedWritten(c: Container, updated: Bytes)
    requires c.Valid() && Placeable(c, |updated|)
    ensures WrittenAt(c.bytes, updated, c.row, Placed(c, updated).bytes, Destination(c, |updated|))
  {
    var at := Destination(c, |updated|);
    SplicedTwice(c.bytes, if at > |c.bytes| then at - |c.bytes| else 0, at, updated, c.row, RowBytes(at, |updated|));
  }

  lemma PlacedRelocated(c: Container, updated: Bytes)
    requires c.Valid() && Placeable(c, |updated|)
    ensures c.row + 24 <= |Placed(c, updated).bytes| && Relocated(c, updated, Placed(c, updated))
  {
    PlacedValid(c, updated);
    DestinationMoves(c, |updated|);
    PlacedWritten(c, updated);
  }

  /** Everything but the index row and the mask payload keeps its bytes; an unchanged mask keeps them all. The new
    * container holds the new mask if and only if the row does not fall on it with other bytes. */
  method PlaceMask(c: Container, updated: Bytes) returns (d: Container)
    requires c.Valid() && Placeable(c, |updated|)
    ensures d.Valid() && d.row == c.row && d.flags == c.flags && d.At() == Destination(c, |updated|) && d.Size() == |updated|
    ensures |c.bytes| <= |d.bytes| && (d.At() == c.At() || |c.bytes| <= d.At())
    ensures forall k | 0 <= k < |c.bytes| && !(c.row <= k < c.row + 24) && !(d.At() <= k < d.At() + |updated|) ::
              d.bytes[k] == c.bytes[k]
    ensures d.Mask() == updated <==> RowAgrees(c, updated)
    ensures Relocated(c, updated, d)
    ensures c.Apart() || d.At() != c.At() ==> d.Apart() && RowAgrees(c, updated)
    ensures updated == c.Mask() ==> d == c
  {
    PlacedValid(c, updated);
    PlacedMask(c, updated);
    PlacedFrame(c, updated);
    PlacedRelocated(c, updated);
    if c.Apart() || Destination(c, |updated|) != c.At() {
      PlacedClear(c, updated);
    }
    if updated == c.Mask() {
      PlacedUnchanged(c, updated);
    }
    d := Placed(c, updated);
  }

  lemma OneTable(head: Bytes, t: Table)
    requires |head| == 8 && U32(head, 4) == 1 && ValidTable(t)
    ensures Holds(head + Encode(t), [t])
  {
    HeadKept(head, head + Encode(t), Encode(t));
    assert EncodeAll([t]) == Encode(t) + EncodeAll([t][1..]);
  }

  lemma FirstRecordEnabled(bits: Bytes)
    requires |bits| > 0 && bits[0] == 0
    ensures var after := WithBit(bits, 0);
            Enables(bits, after, {0}) && |after| == |bits| && after != bits && after[1..] == bits[1..]
  {
    WithBitSets(bits, 0);
    ZeroBit(0);
    assert BitAt(WithBit(bits, 0), 0) && !BitAt(bits, 0);
  }

  lemma EncodedBits(head: Bytes, t: Table)
    requires |head| == 8 && ValidTable(t) && |t.bits| == 24
    ensures |head + Encode(t)| == 44 && (head + Encode(t))[20..44] == t.bits
  {
    var front := t.head + Pack32(|t.bits| / 8);
    assert head + Encode(t) == (head + front) + t.bits;
  }

  lemma RowInside(c: Container, head: Bytes, t: Table)
    requires |head| == 8 && ValidTable(t) && t.bits == RowBytes(0, 44)
    requires c == Container(head + Encode(t), 20, 0)
    ensures c.row + 24 <= |c.bytes| && c.At() == 0 && c.Size() == c.Decoded() == 44 == |c.bytes|
    ensures c.Valid() && c.Mask() == c.bytes
  {
    EncodedBits(head, t);
    RowReads(c, 0, 44);
    assert c.bytes[0..44] == c.bytes;
  }

  /** A row among the bits of its own mask: enabling record 0 has no effect. */
  lemma RowOverMask(head: Bytes, identity: Bytes) returns (c: Container, t: Table, u: Table)
    requires |head| == 8 && U32(head, 4) == 1 && |identity| == 8
    ensures c.Valid() && !c.Apart() && c.flags == 0 && Holds(c.Mask(), [t])
    ensures ValidTable(u) && u.head == t.head && u.bits != t.bits && Enables(t.bits, u.bits, {0})
    ensures Placeable(c, |head + Encode(u)|) && Placed(c, head + Encode(u)) == c
  {
    var row := RowBytes(0, 44);
    assert row[0] == 0;
    FirstRecordEnabled(row);
    t, u := Table(identity, row), Table(identity, WithBit(row, 0));
    c := Container(head + Encode(t), 20, 0);
    RowInside(c, head, t);
    OneTable(head, t);
    RowUndoes(c, head + Encode(u));
  }

  /** The bytes up to `position` are `i` tables, and `offsets` are where they start. */
  ghost predicate Scanned(mask: Bytes, ts: seq<Table>, i: nat, position: nat, offsets: set<int>) {
    && 8 <= position <= |mask|
    && |ts| == i && ValidTables(ts) && EncodeAll(ts) == mask[8..position] && offsets == OffsetSet(ts)
  }

  /** The bytes from `position` to `end` are one table. */
  lemma ReadTable(mask: Bytes, position: nat, end: nat) returns (t: Table)
    requires position + 12 <= end <= |mask| && end == position + 12 + 8 * U32(mask, position + 8)
    ensures ValidTable(t) && Encode(t) == mask[position..end]
  {
    var d := mask[position..];
    assert mask[position + 8..position + 12] == d[8..12];
    FirstEncoded(d);
    t := Table(d[..8], d[12..end - position]);
    assert d[..end - position] == mask[position..end];
  }

  lemma NextTable(mask: Bytes, ts: seq<Table>, position: nat, end: nat) returns (us: seq<Table>)
    requires 8 <= position && position + 12 <= end <= |mask| && end == position + 12 + 8 * U32(mask, position + 8)
    requires ValidTables(ts) && EncodeAll(ts) == mask[8..position]
    ensures |us| == |ts| + 1 && ValidTables(us) && EncodeAll(us) == mask[8..end]
    ensures OffsetSet(us) == OffsetSet(ts) + {position}
  {
    var t := ReadTable(mask, position, end);
    us := ts + [t];
    AppendTable(ts, t);
    AppendOffset(ts, t);
    assert mask[8..end] == mask[8..position] + mask[position..end];
  }

  lemma NextScanned(mask: Bytes, ts: seq<Table>, i: nat, position: nat, offsets: set<int>) returns (us: seq<Table>)
    requires position + 12 <= |mask| && Scanned(mask, ts, i, position, offsets)
    ensures var end := position + 12 + 8 * U32(mask, position + 8);
            end <= |mask| ==> Scanned(mask, us, i + 1, end, offsets + {position})
  {
    var end := position + 12 + 8 * U32(mask, position + 8);
    us := ts;
    if end <= |mask| {
      us := NextTable(mask, ts, position, end);
    }
  }

  /** If the bytes are tables at all, the scan is at the start of table `i`. */
  ghost predicate OnTrack(mask: Bytes, whole: Option<seq<Table>>, count: nat, i: nat, position: nat) {
    whole.Some? ==> |whole.value| == count && i <= count && Holds(mask, whole.value) && position == OffsetOf(whole.value, i)
  }

  lemma StaysOnTrack(mask: Bytes, whole: Option<seq<Table>>, count: nat, i: nat, position: nat)
    requires OnTrack(mask, whole, count, i, position) && i < count
    ensures whole.Some? ==> position + 12 <= |mask|
    ensures position + 12 <= |mask| ==> OnTrack(mask, whole, count, i + 1, position + 12 + 8 * U32(mask, position + 8))
  {
    if whole.Some? {
      TableAt(mask, whole.value, i);
    }
  }

  lemma EndsOnTrack(mask: Bytes, whole: Option<seq<Table>>, count: nat, position: nat)
    requires OnTrack(mask, whole, count, count, position)
    ensures whole.Some? ==> position == |mask|
  {
    if whole.Some? {
      LastOffset(mask, whole.value);
    }
  }

  /** Walks the tables; the walk ends at the end of the mask exactly when the mask is tables. */
  method WalkTables(mask: Bytes, ghost whole: Option<seq<Table>>) returns (r: Option<set<int>>, ghost ts: seq<Table>)
    requires |mask| >= 8 && OnTrack(mask, whole, U32(mask, 4), 0, 8)
    ensures r.None? ==> whole.None?
    ensures r.Some? ==> Holds(mask, ts) && r.value == OffsetSet(ts)
  {
    var offsets: set<int>, position: nat := {}, 8;
    var count := U32(mask, 4);
    ts := [];
    for i := 0 to count
      invariant 8 <= position && OnTrack(mask, whole, count, i, position)
      invariant position <= |mask| ==> Scanned(mask, ts, i, position, offsets)
    {
      StaysOnTrack(mask, whole, count, i, position);
      if position + 12 > |mask| {
        return None, [];
      }
      ts := NextScanned(mask, ts, i, position, offsets);
      offsets := offsets + {position};
      position := position + 12 + 8 * U32(mask, position + 8);
    }
    EndsOnTrack(mask, whole, count, position);
    if position != |mask| {
      return None, [];
    }
    assert mask[8..position] == mask[8..];
    r := Some(offsets);
  }

  /** Where the tables of a mask start, if it parses. */
  method TableOffsets(mask: Bytes) returns (r: Option<set<int>>, ghost ts: seq<Table>)
    requires |mask| >= 8
    ensures r.Some? <==> Parse(mask[8..], U32(mask, 4)).Some?
    ensures r.Some? ==> Holds(mask, ts) && r.value == OffsetSet(ts)
  {
    ghost var whole := Parse(mask[8..], U32(mask, 4));
    if whole.Some? {
      HoldsIsParse(mask, whole.value);
    }
    r, ts := WalkTables(mask, whole);
    if r.Some? {
      HoldsIsParse(mask, ts);
    }
  }
}
