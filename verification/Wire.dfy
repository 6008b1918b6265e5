/** Data blocks on the wire: the sender's memory layout and the server's parsing loop. */
module Wire {
  import opened Words
  import opened Rings

  type byte = x: int | 0 <= x < 256

  const MAGIC: u32 := 0xADC0DA7A
  const BLOCK_VERSION: u32 := 1
  const SAMPLES_PER_BLOCK: nat := 256
  const HEADER_SIZE: nat := 24
  const SAMPLE_SIZE: nat := 16  // written out in products

  /** A `data_block_t`; magic and sample count are implied. */
  datatype Block = Block(version: u32, sequence: u32, timestamp: u64, samples: seq<Sample>)

  ghost predicate Sendable(b: Block) {
    |b.samples| < TWO_32
  }

  // ---------------------------------------------------------------- little-endian numbers

  function LittleEndian(x: nat, n: nat): (bs: seq<byte>)
    ensures |bs| == n
    decreases n, x
  {
    if n == 0 then [] else [x % 256] + LittleEndian(x / 256, n - 1)
  }

  function Number(bs: seq<byte>): nat {
    if bs == [] then 0 else bs[0] + 256 * Number(bs[1..])
  }

  function Pow256(n: nat): nat {
    if n == 0 then 1 else 256 * Pow256(n - 1)
  }

  lemma {:induction false} NumberOfLittleEndian(x: nat, n: nat)
    requires x < Pow256(n)
    ensures Number(LittleEndian(x, n)) == x
    decreases n
  {
    if n > 0 {
      NumberOfLittleEndian(x / 256, n - 1);
      assert LittleEndian(x, n)[1..] == LittleEndian(x / 256, n - 1);
    }
  }

  lemma {:induction false} LittleEndianOfNumber(bs: seq<byte>)
    ensures LittleEndian(Number(bs), |bs|) == bs
    ensures Number(bs) < Pow256(|bs|)
  {
    if bs != [] {
      LittleEndianOfNumber(bs[1..]);
    }
  }

  lemma WordSizes()
    ensures Pow256(2) == 0x1_0000 && Pow256(4) == TWO_32 && Pow256(8) == 0x1_0000_0000_0000_0000
  {
    assert Pow256(2) == 0x1_0000;
    assert Pow256(4) == 0x1_0000_0000;
    assert Pow256(6) == 0x1_0000_0000_0000;
  }

  function U16(s: seq<byte>, at: nat): u16
    requires at + 2 <= |s|
  {
    WordSizes();
    LittleEndianOfNumber(s[at..at + 2]);
    Number(s[at..at + 2])
  }

  function U32(s: seq<byte>, at: nat): u32
    requires at + 4 <= |s|
  {
    WordSizes();
    LittleEndianOfNumber(s[at..at + 4]);
    Number(s[at..at + 4])
  }

  function U64(s: seq<byte>, at: nat): u64
    requires at + 8 <= |s|
  {
    WordSizes();
    LittleEndianOfNumber(s[at..at + 8]);
    Number(s[at..at + 8])
  }

  /** Two's complement. */
  function Signed(w: u32): i32 {
    if w < TWO_31 then w else w - TWO_32
  }

  lemma SignedIsInverse(x: i32, w: u32)
    ensures Signed(Wrap32(x)) == x && Wrap32(Signed(w)) == w
  {
  }

  // ---------------------------------------------------------------- layout

  function EncodeSample(x: Sample): (bs: seq<byte>)
    ensures |bs| == SAMPLE_SIZE
  {
    LittleEndian(x.timestamp, 4) + LittleEndian(Wrap32(x.value), 4) + LittleEndian(x.sequence, 4)
    + LittleEndian(x.channel, 2) + LittleEndian(x.flags, 2)
  }

  function EncodeSamples(xs: seq<Sample>): (bs: seq<byte>)
    ensures |bs| == 16 * |xs|
  {
    if xs == [] then [] else EncodeSample(xs[0]) + EncodeSamples(xs[1..])
  }

  function EncodeHeader(b: Block): (bs: seq<byte>)
    ensures |bs| == HEADER_SIZE
  {
    LittleEndian(MAGIC, 4) + LittleEndian(b.version, 4) + LittleEndian(b.sequence, 4)
    + LittleEndian(|b.samples|, 4) + LittleEndian(b.timestamp, 8)
  }

  /** `sizeof(data_block_t)` plus the samples. */
  function Size(b: Block): nat {
    HEADER_SIZE + 16 * |b.samples|
  }

  function Encode(b: Block): (bs: seq<byte>)
    ensures |bs| == Size(b)
  {
    EncodeHeader(b) + EncodeSamples(b.samples)
  }

  function EncodeAll(bs: seq<Block>): seq<byte> {
    if bs == [] then [] else Encode(bs[0]) + EncodeAll(bs[1..])
  }

  function DecodeSample(s: seq<byte>): Sample
    requires |s| >= SAMPLE_SIZE
  {
    Sample(U32(s, 0), Signed(U32(s, 4)), U32(s, 8), U16(s, 12), U16(s, 14))
  }

  function DecodeSamples(s: seq<byte>, n: nat): (xs: seq<Sample>)
    requires |s| >= 16 * n
    ensures |xs| == n
    decreases n
  {
    if n == 0 then [] else [DecodeSample(s)] + DecodeSamples(s[SAMPLE_SIZE..], n - 1)
  }

  /** The size the server computes from the header at the front of `s`. */
  function BlockSize(s: seq<byte>): nat
    requires |s| >= HEADER_SIZE
  {
    HEADER_SIZE + U32(s, 12) * 16
  }

  /** The block the server sees when it looks at the front of `s` as a `data_block_t`. */
  function DecodeBlock(s: seq<byte>): Block
    requires |s| >= HEADER_SIZE && |s| >= BlockSize(s)
  {
    Block(U32(s, 4), U32(s, 8), U64(s, 16), DecodeSamples(s[HEADER_SIZE..], U32(s, 12)))
  }

  // ---------------------------------------------------------------- round trip of one block

  lemma U32OfLittleEndian(s: seq<byte>, at: nat, x: u32)
    requires at + 4 <= |s| && s[at..at + 4] == LittleEndian(x, 4)
    ensures U32(s, at) == x
  {
    WordSizes();
    NumberOfLittleEndian(x, 4);
  }

  lemma ShiftedWord(s: seq<byte>, t: seq<byte>, at: nat, at': nat)
    requires at + 4 <= |s| && at' + 4 <= |t| && s[at..at + 4] == t[at'..at' + 4]
    ensures U32(s, at) == U32(t, at')
  {
  }

  lemma U16OfLittleEndian(s: seq<byte>, at: nat, x: u16)
    requires at + 2 <= |s| && s[at..at + 2] == LittleEndian(x, 2)
    ensures U16(s, at) == x
  {
    WordSizes();
    NumberOfLittleEndian(x, 2);
  }

  lemma U64OfLittleEndian(s: seq<byte>, at: nat, x: u64)
    requires at + 8 <= |s| && s[at..at + 8] == LittleEndian(x, 8)
    ensures U64(s, at) == x
  {
    WordSizes();
    NumberOfLittleEndian(x, 8);
  }

  lemma Associative(a: seq<byte>, b: seq<byte>, c: seq<byte>)
    ensures (a + b) + c == a + (b + c)
  {
  }

  lemma Adjacent(s: seq<byte>, a: nat, b: nat, c: nat)
    requires a <= b <= c <= |s|
    ensures s[a..b] + s[b..c] == s[a..c]
  {
  }

  lemma FieldIn(s: seq<byte>, pre: seq<byte>, field: seq<byte>)
    requires pre + field <= s
    ensures s[|pre|..|pre| + |field|] == field
    ensures pre <= s
  {
    assert forall i :: 0 <= i < |field| ==> (pre + field)[|pre| + i] == field[i];
  }

  lemma SampleLayout(x: Sample, rest: seq<byte>)
    ensures var s := EncodeSample(x) + rest;
            && U32(s, 0) == x.timestamp && U32(s, 4) == Wrap32(x.value) && U32(s, 8) == x.sequence
            && U16(s, 12) == x.channel && U16(s, 14) == x.flags
  {
    var s := EncodeSample(x) + rest;
    var t, v, q := LittleEndian(x.timestamp, 4), LittleEndian(Wrap32(x.value), 4), LittleEndian(x.sequence, 4);
    var c, f := LittleEndian(x.channel, 2), LittleEndian(x.flags, 2);
    FieldIn(s, t + v + q + c, f);
    FieldIn(s, t + v + q, c);
    FieldIn(s, t + v, q);
    FieldIn(s, t, v);
    U32OfLittleEndian(s, 0, x.timestamp);
    U32OfLittleEndian(s, 4, Wrap32(x.value));
    U32OfLittleEndian(s, 8, x.sequence);
    U16OfLittleEndian(s, 12, x.channel);
    U16OfLittleEndian(s, 14, x.flags);
  }

  lemma DecodeOfEncodeSample(x: Sample, rest: seq<byte>)
    ensures DecodeSample(EncodeSample(x) + rest) == x
  {
    SampleLayout(x, rest);
    SignedIsInverse(x.value, 0);
  }

  lemma {:induction false} DecodeOfEncodeSamples(xs: seq<Sample>, rest: seq<byte>)
    ensures DecodeSamples(EncodeSamples(xs) + rest, |xs|) == xs
  {
    if xs != [] {
      var s := EncodeSamples(xs) + rest;
      var rest' := EncodeSamples(xs[1..]) + rest;
      Associative(EncodeSample(xs[0]), EncodeSamples(xs[1..]), rest);
      DecodeOfEncodeSample(xs[0], rest');
      assert s[SAMPLE_SIZE..] == rest';
      DecodeOfEncodeSamples(xs[1..], rest);
    }
  }

  lemma HeaderLayout(b: Block, rest: seq<byte>)
    requires Sendable(b)
    ensures var s := EncodeHeader(b) + rest;
            && U32(s, 0) == MAGIC && U32(s, 4) == b.version && U32(s, 8) == b.sequence
            && U32(s, 12) == |b.samples| && U64(s, 16) == b.timestamp
  {
    var s := EncodeHeader(b) + rest;
    var m, v, q := LittleEndian(MAGIC, 4), LittleEndian(b.version, 4), LittleEndian(b.sequence, 4);
    var n, t := LittleEndian(|b.samples|, 4), LittleEndian(b.timestamp, 8);
    FieldIn(s, m + v + q + n, t);
    FieldIn(s, m + v + q, n);
    FieldIn(s, m + v, q);
    FieldIn(s, m, v);
    U32OfLittleEndian(s, 0, MAGIC);
    U32OfLittleEndian(s, 4, b.version);
    U32OfLittleEndian(s, 8, b.sequence);
    U32OfLittleEndian(s, 12, |b.samples|);
    U64OfLittleEndian(s, 16, b.timestamp);
  }

  lemma DecodeOfEncode(b: Block, rest: seq<byte>)
    requires Sendable(b)
    ensures var s := Encode(b) + rest;
            && U32(s, 0) == MAGIC
            && BlockSize(s) == |Encode(b)|
            && DecodeBlock(s) == b
  {
    var s := Encode(b) + rest;
    var rest' := EncodeSamples(b.samples) + rest;
    Associative(EncodeHeader(b), EncodeSamples(b.samples), rest);
    HeaderLayout(b, rest');
    assert s[HEADER_SIZE..] == rest';
    DecodeOfEncodeSamples(b.samples, rest);
  }

  lemma LittleEndianOfU32(s: seq<byte>, at: nat)
    requires at + 4 <= |s|
    ensures LittleEndian(U32(s, at), 4) == s[at..at + 4]
  {
    LittleEndianOfNumber(s[at..at + 4]);
  }

  lemma LittleEndianOfU16(s: seq<byte>, at: nat)
    requires at + 2 <= |s|
    ensures LittleEndian(U16(s, at), 2) == s[at..at + 2]
  {
    LittleEndianOfNumber(s[at..at + 2]);
  }

  lemma SampleParts(s: seq<byte>)
    requires |s| >= SAMPLE_SIZE
    ensures s[0..4] + s[4..8] + s[8..12] + s[12..14] + s[14..16] == s[..SAMPLE_SIZE]
  {
    Adjacent(s, 0, 4, 8);
    Adjacent(s, 0, 8, 12);
    Adjacent(s, 0, 12, 14);
    Adjacent(s, 0, 14, 16);
  }

  lemma EncodeOfDecodeSample(s: seq<byte>)
    requires |s| >= SAMPLE_SIZE
    ensures EncodeSample(DecodeSample(s)) == s[..SAMPLE_SIZE]
  {
    var x := DecodeSample(s);
    assert LittleEndian(x.timestamp, 4) == s[0..4] by { LittleEndianOfU32(s, 0); }
    assert LittleEndian(Wrap32(x.value), 4) == s[4..8] by {
      LittleEndianOfU32(s, 4);
      SignedIsInverse(0, U32(s, 4));
    }
    assert LittleEndian(x.sequence, 4) == s[8..12] by { LittleEndianOfU32(s, 8); }
    assert LittleEndian(x.channel, 2) == s[12..14] by { LittleEndianOfU16(s, 12); }
    assert LittleEndian(x.flags, 2) == s[14..16] by { LittleEndianOfU16(s, 14); }
    SampleParts(s);
  }

  lemma {:induction false} EncodeOfDecodeSamples(s: seq<byte>, n: nat)
    requires |s| >= 16 * n
    ensures EncodeSamples(DecodeSamples(s, n)) == s[..16 * n]
    decreases n
  {
    if n > 0 {
      EncodeOfDecodeSample(s);
      EncodeOfDecodeSamples(s[SAMPLE_SIZE..], n - 1);
      assert DecodeSamples(s, n)[1..] == DecodeSamples(s[SAMPLE_SIZE..], n - 1);
      assert s[..16 * n] == s[..SAMPLE_SIZE] + s[SAMPLE_SIZE..][..16 * (n - 1)];
    }
  }

  lemma HeaderOfDecode(s: seq<byte>)
    requires |s| >= HEADER_SIZE && U32(s, 0) == MAGIC && |s| >= BlockSize(s)
    ensures EncodeHeader(DecodeBlock(s)) == s[..HEADER_SIZE]
  {
    LittleEndianOfU32(s, 0);
    LittleEndianOfU32(s, 4);
    LittleEndianOfU32(s, 8);
    LittleEndianOfU32(s, 12);
    LittleEndianOfNumber(s[16..24]);
    Adjacent(s, 0, 4, 8);
    Adjacent(s, 0, 8, 12);
    Adjacent(s, 0, 12, 16);
    Adjacent(s, 0, 16, 24);
  }

  /** Any bytes that start with the magic word and hold as many samples as the header says are
      the encoding of the block read from them. */
  lemma EncodeOfDecode(s: seq<byte>)
    requires |s| >= HEADER_SIZE && U32(s, 0) == MAGIC && |s| >= BlockSize(s)
    ensures Encode(DecodeBlock(s)) == s[..BlockSize(s)]
  {
    HeaderOfDecode(s);
    EncodeOfDecodeSamples(s[HEADER_SIZE..], U32(s, 12));
    assert s[..BlockSize(s)] == s[..24] + s[24..][..16 * U32(s, 12)];
  }

  // ---------------------------------------------------------------- the image, byte by byte

  /** Byte k of a number has the weight 256^k. */
  lemma {:induction false} LittleEndianAt(x: nat, n: nat, k: nat)
    requires k < n
    ensures Pow256(k) > 0 && LittleEndian(x, n)[k] == (x / Pow256(k)) % 256
    decreases k
  {
    if k > 0 {
      LittleEndianAt(x / 256, n - 1, k - 1);
      assert LittleEndian(x, n)[1..] == LittleEndian(x / 256, n - 1);
      QuotientOfQuotient(x, Pow256(k - 1));
    } else {
      assert Pow256(0) == 1 && x / 1 == x;
    }
  }

  lemma QuotientOfQuotient(x: nat, m: nat)
    requires m > 0
    ensures x / 256 / m == x / (256 * m)
  {
    var q, r := x / 256 / m, x / 256 % m;
    assert x / 256 == m * q + r;
    assert x == (256 * m) * q + (256 * r + x % 256);
    assert 256 * r + x % 256 < 256 * m;
    QuotientUnique(x, 256 * m, q, 256 * r + x % 256);
  }

  lemma CancelFactor(c: nat, a: int, b: int)
    requires c > 0 && c * a == c * b
    ensures a == b
  {
    assert c * (a - b) == c * a - c * b == 0 == c * (b - a);
    if a > b {
      MulAtLeast(c, a - b);
    } else if a < b {
      MulAtLeast(c, b - a);
    }
  }

  lemma QuotientUnique(x: nat, c: nat, q: nat, r: nat)
    requires r < c && x == c * q + r
    ensures x / c == q
  {
    ModUnique(x, c, q, r);
    CancelFactor(c, x / c, q);
  }

  /** The header of `b` stands at the front of `s`, field by field as in `data_block_t`. */
  ghost predicate HeaderStands(s: seq<byte>, b: Block)
    requires |s| >= 24
  {
    && s[0..4] == LittleEndian(MAGIC, 4) && s[4..8] == LittleEndian(b.version, 4)
    && s[8..12] == LittleEndian(b.sequence, 4) && s[12..16] == LittleEndian(|b.samples|, 4)
    && s[16..24] == LittleEndian(b.timestamp, 8)
  }

  /** Sample `x` stands at `at`, field by field as in `adc_sample_t`. */
  ghost predicate SampleStands(s: seq<byte>, at: nat, x: Sample)
    requires at + 16 <= |s|
  {
    && s[at..at + 4] == LittleEndian(x.timestamp, 4) && s[at + 4..at + 8] == LittleEndian(Wrap32(x.value), 4)
    && s[at + 8..at + 12] == LittleEndian(x.sequence, 4) && s[at + 12..at + 14] == LittleEndian(x.channel, 2)
    && s[at + 14..at + 16] == LittleEndian(x.flags, 2)
  }

  lemma HeaderBytes(b: Block)
    ensures HeaderStands(Encode(b), b)
  {
    var m, v, q := LittleEndian(MAGIC, 4), LittleEndian(b.version, 4), LittleEndian(b.sequence, 4);
    var n, t := LittleEndian(|b.samples|, 4), LittleEndian(b.timestamp, 8);
    var s := Encode(b);
    assert m + v + q + n + t <= s;
    FieldIn(s, m + v + q + n, t);
    FieldIn(s, m + v + q, n);
    FieldIn(s, m + v, q);
    FieldIn(s, m, v);
  }

  lemma SampleBytes(x: Sample)
    ensures SampleStands(EncodeSample(x), 0, x)
  {
    var t, v, q := LittleEndian(x.timestamp, 4), LittleEndian(Wrap32(x.value), 4), LittleEndian(x.sequence, 4);
    var c, f := LittleEndian(x.channel, 2), LittleEndian(x.flags, 2);
    var s := EncodeSample(x);
    FieldIn(s, t + v + q + c, f);
    FieldIn(s, t + v + q, c);
    FieldIn(s, t + v, q);
    FieldIn(s, t, v);
  }

  /** The samples are 16 bytes apart. */
  lemma {:induction false} SampleIn(xs: seq<Sample>, i: nat)
    requires i < |xs|
    ensures EncodeSamples(xs)[16 * i..16 * i + 16] == EncodeSample(xs[i])
  {
    var s, rest := EncodeSamples(xs), EncodeSamples(xs[1..]);
    assert s == EncodeSample(xs[0]) + rest;
    if i > 0 {
      SampleIn(xs[1..], i - 1);
      Shifted(EncodeSample(xs[0]), rest, 16 * (i - 1), 16 * (i - 1) + 16);
    }
  }

  lemma Shifted(pre: seq<byte>, s: seq<byte>, lo: nat, hi: nat)
    requires lo <= hi <= |s|
    ensures (pre + s)[|pre| + lo..|pre| + hi] == s[lo..hi]
  {
  }

  lemma SampleInBlock(b: Block, i: nat)
    requires i < |b.samples|
    ensures Encode(b)[24 + 16 * i..24 + 16 * i + 16] == EncodeSample(b.samples[i])
  {
    SampleIn(b.samples, i);
    Shifted(EncodeHeader(b), EncodeSamples(b.samples), 16 * i, 16 * i + 16);
  }

  lemma MovedSample(s: seq<byte>, at: nat, e: seq<byte>, x: Sample)
    requires |e| == 16 && SampleStands(e, 0, x) && at + 16 <= |s| && s[at..at + 16] == e
    ensures SampleStands(s, at, x)
  {
    SubSlices(s, at, e);
  }

  /** The memory image of a block: the fields of the header and, from offset 24 on and 16 bytes
      apart, those of every sample stand at their offsets, the low byte first. */
  lemma BlockLayout(b: Block)
    ensures |Encode(b)| == 24 + 16 * |b.samples|
    ensures HeaderStands(Encode(b), b)
    ensures forall i :: 0 <= i < |b.samples| ==> SampleStands(Encode(b), 24 + 16 * i, b.samples[i])
  {
    HeaderBytes(b);
    forall i | 0 <= i < |b.samples|
      ensures SampleStands(Encode(b), 24 + 16 * i, b.samples[i])
    {
      SampleBytes(b.samples[i]);
      SampleInBlock(b, i);
      MovedSample(Encode(b), 24 + 16 * i, EncodeSample(b.samples[i]), b.samples[i]);
    }
  }

  lemma SubSlices(s: seq<byte>, at: nat, x: seq<byte>)
    requires |x| == 16 && at + 16 <= |s| && s[at..at + 16] == x
    ensures s[at..at + 4] == x[0..4] && s[at + 4..at + 8] == x[4..8] && s[at + 8..at + 12] == x[8..12]
    ensures s[at + 12..at + 14] == x[12..14] && s[at + 14..at + 16] == x[14..16]
  {
    SubSlice(s, at, x, 0, 4);
    SubSlice(s, at, x, 4, 8);
    SubSlice(s, at, x, 8, 12);
    SubSlice(s, at, x, 12, 14);
    SubSlice(s, at, x, 14, 16);
  }

  lemma SubSlice(s: seq<byte>, at: nat, x: seq<byte>, lo: nat, hi: nat)
    requires lo <= hi <= |x| && at + |x| <= |s| && s[at..at + |x|] == x
    ensures s[at + lo..at + hi] == x[lo..hi]
  {
    var tail := s[at + lo..];
    assert s[at..at + |x|][lo..] == tail[..|x| - lo];
    assert x[lo..][..hi - lo] == x[lo..hi];
    assert tail[..|x| - lo][..hi - lo] == s[at + lo..at + hi];
  }

  // ---------------------------------------------------------------- the server loop

  /** The blocks the loop recognises in `s`: it skips four bytes where the magic word is
      missing and stops at a block that is not complete. */
  function Parse(s: seq<byte>): seq<Block>
    decreases |s|
  {
    if |s| < HEADER_SIZE then []
    else if U32(s, 0) != MAGIC then Parse(s[4..])
    else if BlockSize(s) > |s| then []
    else [DecodeBlock(s)] + Parse(s[BlockSize(s)..])
  }

  /** The parsing loop over the first `received` bytes of the receive buffer. */
  method ParseReceived(buffer: array<byte>, received: nat, blocksBefore: nat)
      returns (totalBlocks: nat, blocks: seq<Block>)
    requires received <= buffer.Length
    ensures blocks == Parse(buffer[..received])
    ensures totalBlocks == blocksBefore + |blocks|
  {
    totalBlocks, blocks := blocksBefore, [];
    var offset := 0;
    ghost var all := buffer[..received];
    while offset + HEADER_SIZE <= received
      invariant offset <= received
      invariant blocks + Parse(all[offset..]) == Parse(all)
      invariant totalBlocks == blocksBefore + |blocks|
      decreases received - offset
    {
      var block := buffer[offset..received];
      assert block == all[offset..];
      if U32(block, 0) != MAGIC {
        offset := offset + 4;
        assert block[4..] == all[offset..];
        continue;
      }
      var blockSize := BlockSize(block);
      if offset + blockSize > received {
        break;
      }
      totalBlocks := totalBlocks + 1;
      blocks := blocks + [DecodeBlock(block)];
      offset := offset + blockSize;
      assert block[blockSize..] == all[offset..];
    }
  }

  // ---------------------------------------------------------------- print / parse round trip

  /** Bytes the loop steps over: whole words, none of them the magic word. */
  ghost predicate IsFiller(f: seq<byte>) {
    |f| % 4 == 0 && forall k: nat :: k % 4 == 0 && k + 4 <= |f| ==> U32(f, k) != MAGIC
  }

  /** A block that was cut off before its last byte. */
  ghost predicate IsCutBlock(p: seq<byte>) {
    exists b: Block :: Sendable(b) && |p| < |Encode(b)| && p == Encode(b)[..|p|]
  }

  lemma CutBlockParsesToNothing(p: seq<byte>, b: Block)
    requires Sendable(b) && |p| < |Encode(b)| && p == Encode(b)[..|p|]
    ensures Parse(p) == []
  {
    if |p| >= HEADER_SIZE {
      SizeOfEncode(b);
      PrefixWord(p, Encode(b), 0);
      PrefixWord(p, Encode(b), 12);
    }
  }

  lemma SizeOfEncode(b: Block)
    requires Sendable(b)
    ensures U32(Encode(b), 0) == MAGIC && BlockSize(Encode(b)) == |Encode(b)|
  {
    HeaderLayout(b, EncodeSamples(b.samples));
  }

  lemma PrefixWord(p: seq<byte>, s: seq<byte>, at: nat)
    requires p <= s && at + 4 <= |p|
    ensures U32(p, at) == U32(s, at)
  {
    assert p[at..at + 4] == s[at..at + 4];
  }

  lemma {:induction false} ParseOfBlocks(bs: seq<Block>, p: seq<byte>)
    requires forall b :: b in bs ==> Sendable(b)
    requires IsCutBlock(p)
    ensures Parse(EncodeAll(bs) + p) == bs
    decreases |bs|
  {
    if bs == [] {
      assert EncodeAll(bs) + p == p;
      var b :| Sendable(b) && |p| < |Encode(b)| && p == Encode(b)[..|p|];
      CutBlockParsesToNothing(p, b);
    } else {
      var rest := EncodeAll(bs[1..]) + p;
      var s := EncodeAll(bs) + p;
      Associative(Encode(bs[0]), EncodeAll(bs[1..]), p);
      DecodeOfEncode(bs[0], rest);
      assert s[BlockSize(s)..] == rest;
      ParseOfBlocks(bs[1..], p);
    }
  }

  lemma {:induction false} ParseSkipsFiller(f: seq<byte>, s: seq<byte>)
    requires IsFiller(f)
    ensures Parse(f + s) == Parse(s) || (|s| < HEADER_SIZE && Parse(f + s) == [])
    decreases |f|
  {
    if f == [] {
      assert f + s == s;
    } else if |f + s| >= HEADER_SIZE {
      ShiftedWord(f + s, f, 0, 0);
      assert (f + s)[4..] == f[4..] + s;
      forall k: nat | k % 4 == 0 && k + 4 <= |f[4..]|
        ensures U32(f[4..], k) != MAGIC
      {
        ShiftedWord(f[4..], f, k, k + 4);
      }
      ParseSkipsFiller(f[4..], s);
    }
  }

  lemma BlocksAreLong(bs: seq<Block>)
    requires bs != []
    ensures |EncodeAll(bs)| >= HEADER_SIZE
  {
    assert EncodeAll(bs) == Encode(bs[0]) + EncodeAll(bs[1..]);
  }

  /** Round trip: filler, then any blocks, then a cut block: the loop recognises exactly those
      blocks, in order, with their fields intact. */
  lemma ParseRoundTrip(f: seq<byte>, bs: seq<Block>, p: seq<byte>)
    requires IsFiller(f)
    requires forall b :: b in bs ==> Sendable(b)
    requires IsCutBlock(p)
    ensures Parse(f + EncodeAll(bs) + p) == bs
  {
    ParseOfBlocks(bs, p);
    Associative(f, EncodeAll(bs), p);
    ParseSkipsFiller(f, EncodeAll(bs) + p);
    if bs != [] {
      BlocksAreLong(bs);
    }
  }

  // ---------------------------------------------------------------- soundness on any input

  function Weave(gaps: seq<seq<byte>>, bs: seq<Block>): seq<byte>
    requires |gaps| == |bs|
  {
    if bs == [] then [] else gaps[0] + Encode(bs[0]) + Weave(gaps[1..], bs[1..])
  }

  lemma WidenWeave(w: seq<byte>, gaps: seq<seq<byte>>, bs: seq<Block>, tail: seq<byte>)
    requires |gaps| == |bs| > 0
    ensures Weave([w + gaps[0]] + gaps[1..], bs) + tail == w + (Weave(gaps, bs) + tail)
  {
    assert ([w + gaps[0]] + gaps[1..])[1..] == gaps[1..];
  }

  lemma WeaveFirst(b: Block, gaps: seq<seq<byte>>, bs: seq<Block>)
    requires |gaps| == |bs|
    ensures Weave([[]] + gaps, [b] + bs) == Encode(b) + Weave(gaps, bs)
  {
    assert ([[]] + gaps)[1..] == gaps && ([b] + bs)[1..] == bs;
    assert [] + Encode(b) == Encode(b);
  }

  lemma SplitAt(s: seq<byte>, n: nat, w: seq<byte>, tail: seq<byte>)
    requires n <= |s| && s[n..] == w + tail
    ensures s == (s[..n] + w) + tail
  {
    Associative(s[..n], w, tail);
    assert s == s[..n] + s[n..];
  }

  lemma ExtendWeave(s: seq<byte>, n: nat, b: Block, gaps: seq<seq<byte>>, bs: seq<Block>, tail: seq<byte>)
    requires |gaps| == |bs| && n <= |s| && Encode(b) == s[..n]
    requires s[n..] == Weave(gaps, bs) + tail
    ensures s == Weave([[]] + gaps, [b] + bs) + tail
  {
    WeaveFirst(b, gaps, bs);
    SplitAt(s, n, Weave(gaps, bs), tail);
  }

  lemma SkipStep(s: seq<byte>, gaps: seq<seq<byte>>, tail: seq<byte>)
    requires |s| >= HEADER_SIZE && U32(s, 0) != MAGIC
    requires |gaps| == |Parse(s[4..])| > 0
    requires s[4..] == Weave(gaps, Parse(s[4..])) + tail
    ensures s == Weave([s[..4] + gaps[0]] + gaps[1..], Parse(s)) + tail
  {
    WidenWeave(s[..4], gaps, Parse(s), tail);
    assert s == s[..4] + s[4..];
  }

  lemma BlockStep(s: seq<byte>, gaps: seq<seq<byte>>, tail: seq<byte>)
    requires |s| >= HEADER_SIZE && U32(s, 0) == MAGIC && BlockSize(s) <= |s|
    requires |gaps| == |Parse(s[BlockSize(s)..])|
    requires s[BlockSize(s)..] == Weave(gaps, Parse(s[BlockSize(s)..])) + tail
    ensures s == Weave([[]] + gaps, Parse(s)) + tail
  {
    var n := BlockSize(s);
    var b, bs := DecodeBlock(s), Parse(s[n..]);
    assert Parse(s) == [b] + bs;
    EncodeOfDecode(s);
    ExtendWeave(s, n, b, gaps, bs, tail);
  }

  /** What the loop stops at: too few bytes for a header, or a block that is not complete. */
  ghost predicate IsStuck(r: seq<byte>) {
    |r| < HEADER_SIZE || (U32(r, 0) == MAGIC && BlockSize(r) > |r|)
  }

  /** Bytes without a recognisable block: filler, and then what the loop stops at. */
  ghost predicate IsRest(tail: seq<byte>, f: seq<byte>, r: seq<byte>) {
    tail == f + r && IsFiller(f) && IsStuck(r)
  }

  /** `s` is made of the blocks `bs`, each encoded behind some filler, and a rest. */
  ghost predicate IsWoven(s: seq<byte>, bs: seq<Block>, gaps: seq<seq<byte>>, tail: seq<byte>) {
    && |gaps| == |bs|
    && s == Weave(gaps, bs) + tail
    && (forall i :: 0 <= i < |gaps| ==> IsFiller(gaps[i]))
    && (forall b :: b in bs ==> Sendable(b))
    && exists f, r :: IsRest(tail, f, r)
  }

  lemma StuckIsRest(s: seq<byte>)
    requires IsStuck(s)
    ensures IsRest(s, [], s)
  {
    assert [] + s == s;
  }

  lemma WidenRest(s: seq<byte>, tail: seq<byte>)
    requires |s| >= HEADER_SIZE && U32(s, 0) != MAGIC && s[4..] == tail
    requires exists f, r :: IsRest(tail, f, r)
    ensures exists f, r :: IsRest(s, f, r)
  {
    var f, r :| IsRest(tail, f, r);
    ShiftedWord(s[..4], s, 0, 0);
    WidenFiller(s[..4], f);
    Associative(s[..4], f, r);
    assert s == s[..4] + s[4..];
    assert IsRest(s, s[..4] + f, r);
  }

  /** Whatever the input, each recognised block stands encoded in it: in order, without
      overlap, with filler only in between, and with no further block behind. */
  lemma {:induction false} ParseSound(s: seq<byte>) returns (gaps: seq<seq<byte>>, tail: seq<byte>)
    ensures IsWoven(s, Parse(s), gaps, tail)
    decreases |s|
  {
    if IsStuck(s) {
      gaps, tail := [], s;
      StuckIsRest(s);
    } else if U32(s, 0) != MAGIC {
      gaps, tail := ParseSound(s[4..]);
      if gaps == [] {
        assert s[4..] == tail;
        WidenRest(s, tail);
        tail := s;
      } else {
        SkipStep(s, gaps, tail);
        ShiftedWord(s[..4], s, 0, 0);
        WidenFiller(s[..4], gaps[0]);
        gaps := [s[..4] + gaps[0]] + gaps[1..];
      }
    } else {
      gaps, tail := ParseSound(s[BlockSize(s)..]);
      BlockStep(s, gaps, tail);
      gaps := [[]] + gaps;
    }
  }

  lemma ParseOfRest(tail: seq<byte>)
    requires exists f, r :: IsRest(tail, f, r)
    ensures Parse(tail) == []
  {
    var f, r :| IsRest(tail, f, r);
    ParseSkipsFiller(f, r);
  }

  lemma ParseFirst(gap: seq<byte>, b: Block, rest: seq<byte>)
    requires IsFiller(gap) && Sendable(b)
    ensures Parse(gap + (Encode(b) + rest)) == [b] + Parse(rest)
  {
    var x := Encode(b) + rest;
    DecodeOfEncode(b, rest);
    assert x[BlockSize(x)..] == rest;
    ParseSkipsFiller(gap, x);
  }

  /** And every block that stands so is recognised: nothing in front of it can hide it but a block
      that is not complete. */
  lemma {:induction false} ParseComplete(s: seq<byte>, bs: seq<Block>, gaps: seq<seq<byte>>, tail: seq<byte>)
    requires IsWoven(s, bs, gaps, tail)
    ensures Parse(s) == bs
    decreases |bs|
  {
    if bs == [] {
      assert s == tail;
      ParseOfRest(tail);
    } else {
      var rest := Weave(gaps[1..], bs[1..]) + tail;
      ParseComplete(rest, bs[1..], gaps[1..], tail);
      ParseFirst(gaps[0], bs[0], rest);
      Associative(gaps[0] + Encode(bs[0]), Weave(gaps[1..], bs[1..]), tail);
      Associative(gaps[0], Encode(bs[0]), rest);
    }
  }

  /** Exactly what the loop recognises, on any input: the blocks `bs` if and only if the input is
      these blocks encoded, each behind some filler, and then filler and an end that is too short. */
  lemma ParseIff(s: seq<byte>, bs: seq<Block>)
    ensures Parse(s) == bs <==> exists gaps, tail :: IsWoven(s, bs, gaps, tail)
  {
    if Parse(s) == bs {
      var gaps, tail := ParseSound(s);
      assert IsWoven(s, bs, gaps, tail);
    } else if gaps, tail :| IsWoven(s, bs, gaps, tail) {
      ParseComplete(s, bs, gaps, tail);
    }
  }

  lemma WidenFiller(w: seq<byte>, f: seq<byte>)
    requires |w| == 4 && U32(w, 0) != MAGIC && IsFiller(f)
    ensures IsFiller(w + f)
  {
    var g := w + f;
    forall k: nat | k % 4 == 0 && k + 4 <= |g|
      ensures U32(g, k) != MAGIC
    {
      if k == 0 {
        ShiftedWord(g, w, 0, 0);
      } else {
        ShiftedWord(g, f, k, k - 4);
      }
    }
  }
}
