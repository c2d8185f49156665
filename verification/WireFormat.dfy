/** The bytes of the perf ABI: which streams the ring reader takes apart into which
    records, and what a record built for a format is later seen as. */
module WireFormat {
  import opened Bits
  import opened Ring
  import S = SampleRecord

  // ------------------------------------------------------------------ framing

  /** The size of a record, as its header says: a 16-bit little-endian word at byte 6. */
  function SizeIn(bytes: seq<Byte>): (n: nat)
    requires |bytes| >= 8
  {
    S.FromLE(bytes[6..8])
  }

  lemma SizeIsField(bytes: seq<Byte>)
    requires |bytes| >= 8
    ensures SizeIn(bytes) == SizeField(bytes[6], bytes[7])
  {
    var field := bytes[6..8];
    assert field[1..] == [bytes[7]] && [bytes[7]][1..] == [];
    assert S.FromLE([bytes[7]]) == bytes[7] + 256 * S.FromLE([]);
    assert S.FromLE(field) == field[0] + 256 * S.FromLE(field[1..]);
  }

  /** Framing any stream: records as long as their headers say, in order, and what is left
      over decides the error. */
  lemma {:induction false} FramingIs(stream: seq<Byte>, capacity: nat) returns (rest: seq<Byte>)
    ensures var f := Split(stream, capacity);
      && stream == Join(f.records) + rest
      && (forall r :: r in f.records ==> 8 <= |r| <= capacity && SizeIn(r) == |r|)
      && (f.error == None <==> rest == [])
      && (f.error == Some(PartialHeader) <==> 0 < |rest| < 8)
      && (f.error == Some(InvalidLength) <==> |rest| >= 8 && (SizeIn(rest) < 8 || capacity < SizeIn(rest)))
      && (f.error == Some(PartialRecord) <==> |rest| >= 8 && 8 <= SizeIn(rest) <= capacity && |rest| < SizeIn(rest))
    decreases |stream|
  {
    rest := stream;
    if |stream| >= 8 {
      SizeIsField(stream);
      var len := SizeIn(stream);
      if 8 <= len <= capacity && len <= |stream| {
        rest := FramingIs(stream[len..], capacity);
        FramedFirst(stream, len, capacity, rest);
      }
    }
  }

  lemma FramedFirst(stream: seq<Byte>, len: nat, capacity: nat, rest: seq<Byte>)
    requires 8 <= len <= |stream| && len <= capacity && len == SizeField(stream[6], stream[7])
    requires stream[len..] == Join(Split(stream[len..], capacity).records) + rest
    ensures var f := Split(stream, capacity); var g := Split(stream[len..], capacity);
      && f == Framing([stream[..len]] + g.records, g.error) && stream == Join(f.records) + rest
      && SizeIn(stream[..len]) == len
  {
    var first, others := stream[..len], Split(stream[len..], capacity).records;
    SizeIsField(first);
    assert ([first] + others)[1..] == others;
    assert stream == first + stream[len..];
  }

  // ------------------------------------------------------------- built records

  ghost function Built(contents: seq<S.Contents>): (r: seq<seq<Byte>>) {
    seq(|contents|, i requires 0 <= i < |contents| => S.Record(contents[i]))
  }

  ghost predicate FitsRing(contents: seq<S.Contents>, capacity: nat) {
    forall c :: c in contents ==> S.RecordSize(c) < U16_LIMIT && S.RecordSize(c) <= capacity
  }

  /** A built record carries its own size where the reader looks for it. */
  lemma BuiltIsRecord(c: S.Contents, capacity: nat)
    requires S.RecordSize(c) < U16_LIMIT && S.RecordSize(c) <= capacity
    ensures IsRecord(S.Record(c), capacity)
  {
    var bytes, size := S.Record(c), S.RecordSize(c);
    S.WordSizes();
    S.FromLEInverts(size, 2);
    SizeIsField(bytes);
    assert bytes[6..8] == S.LE(size, 2) by {
      hide S.LE, S.Body, S.Padding;
      assert bytes == S.LE(S.PERF_RECORD_SAMPLE, 4) + S.LE(c.misc, 2) + S.LE(size, 2) + S.Body(c) + S.Padding(|S.Body(c)|);
    }
  }

  /** The reader takes a stream of built records apart into exactly those records. */
  lemma FramesBuilt(contents: seq<S.Contents>, capacity: nat)
    requires FitsRing(contents, capacity)
    ensures Split(Join(Built(contents)), capacity) == Framing(Built(contents), None)
  {
    hide S.Record, S.RecordSize;
    forall r | r in Built(contents)
      ensures IsRecord(r, capacity)
    {
      var i :| 0 <= i < |contents| && r == S.Record(contents[i]);
      assert contents[i] in contents;
      BuiltIsRecord(contents[i], capacity);
    }
    SplitJoin(Built(contents), capacity);
  }

  lemma {:induction false} RunStaysOk(w: World, schedule: seq<Step>)
    requires WorldOk(w)
    ensures WorldOk(RunWorld(w, schedule))
  {
    assert |w.memory| > 0;
    hide WorldOk, StepWorld;
    if schedule != [] {
      RunStaysOk(w, schedule[..|schedule| - 1]);
      WorldStaysOk(RunWorld(w, schedule[..|schedule| - 1]), schedule[|schedule| - 1]);
    }
  }

  /** Whatever the schedule: if what the kernel published is a stream of built records, what
      was received are the first of those records, as they were built. */
  lemma ReceivedAsBuilt(exponent: nat, committed: nat, schedule: seq<Step>, contents: seq<S.Contents>)
    requires FitsRing(contents, Pow2(exponent))
    requires RunWorld(StartWorld(exponent, committed), schedule).published == Join(Built(contents))
    ensures RunWorld(StartWorld(exponent, committed), schedule).received <= Built(contents)
  {
    var start := StartWorld(exponent, committed);
    assert Join([]) == [];
    RunStaysOk(start, schedule);
    var end := RunWorld(start, schedule);
    hide RunWorld, Built, Join, Split, IsRecord, FitsRing;
    assert |end.memory| == Pow2(exponent);
    SplitPrefix(end.received, end.published, Pow2(exponent));
    FramesBuilt(contents, Pow2(exponent));
  }

  // -------------------------------------------------------------- sample formats

  /** A built record: type 9, then the flags, then the size; zeros fill its last word. */
  lemma HeaderBytes(c: S.Contents)
    requires c.misc < U16_LIMIT && S.RecordSize(c) < U16_LIMIT
    ensures S.Record(c)[..4] == [9, 0, 0, 0]
    ensures S.Record(c)[4..6] == [c.misc % 256, c.misc / 256]
    ensures S.Record(c)[6..8] == [|S.Record(c)| % 256, |S.Record(c)| / 256]
    ensures |S.Record(c)| % 8 == 0 && forall i :: 8 + |S.Body(c)| <= i < |S.Record(c)| ==> S.Record(c)[i] == 0
  {
    var bytes, size := S.Record(c), S.RecordSize(c);
    assert S.LE(9, 4) == [9, 0, 0, 0] by {
      assert S.LE(9, 4) == [9] + S.LE(0, 3) && S.LE(0, 3) == [0] + S.LE(0, 2);
    }
    TwoBytes(c.misc);
    TwoBytes(size);
    assert forall b :: b in S.Padding(|S.Body(c)|) ==> b == 0;
    hide S.LE, S.Body, S.Padding;
    assert bytes == S.LE(9, 4) + S.LE(c.misc, 2) + S.LE(size, 2) + S.Body(c) + S.Padding(|S.Body(c)|);
  }

  /** A sample record is one of type 9 that is as long as it says. */
  lemma SampleHeaderIs(bytes: seq<Byte>)
    ensures S.IsSampleHeader(bytes) <==> |bytes| >= 8 && bytes[..4] == [9, 0, 0, 0] && SizeIn(bytes) == |bytes|
  {
    if |bytes| >= 8 {
      assert bytes[0..4] == [bytes[0], bytes[1], bytes[2], bytes[3]] == bytes[..4];
      FourBytes(bytes[0], bytes[1], bytes[2], bytes[3]);
    }
  }

  lemma FourBytes(a: Byte, b: Byte, c: Byte, d: Byte)
    ensures S.FromLE([a, b, c, d]) == a + 256 * (b + 256 * (c + 256 * d))
  {
    assert [a, b, c, d][1..] == [b, c, d] && [b, c, d][1..] == [c, d] && [c, d][1..] == [d] && [d][1..] == [];
    assert S.FromLE([d]) == d + 256 * S.FromLE([]);
    assert S.FromLE([c, d]) == c + 256 * S.FromLE([d]);
    assert S.FromLE([b, c, d]) == b + 256 * S.FromLE([c, d]);
  }

  lemma TwoBytes(v: nat)
    requires v < U16_LIMIT
    ensures S.LE(v, 2) == [v % 256, v / 256]
  {
    assert S.LE(v / 256, 1) == [v / 256 % 256] + S.LE(v / 256 / 256, 0);
  }

  /** A mask of a single power of two tests one bit. */
  lemma {:induction false} FlagIsBit(x: nat, k: nat)
    ensures BitAnd(x, Pow2(k)) != 0 <==> x / Pow2(k) % 2 == 1
    decreases k
  {
    if x == 0 {
    } else if k == 0 {
      assert BitAnd(x, 1) == 2 * BitAnd(x / 2, 0) + if x % 2 == 1 then 1 else 0;
    } else {
      FlagIsBit(x / 2, k - 1);
      HalfDivision(x, Pow2(k - 1));
      assert Pow2(k) / 2 == Pow2(k - 1) && Pow2(k) % 2 == 0;
    }
  }

  lemma HalfDivision(x: nat, half: nat)
    requires half > 0
    ensures x / (2 * half) == x / 2 / half
  {
    var q, r := x / 2 / half, x / 2 % half;
    assert x / 2 == q * half + r;
    assert x == (2 * half) * q + (2 * r + x % 2) by { assert 2 * (q * half) == (2 * half) * q; }
    ModuloUnique(x, 2 * half, q, 2 * r + x % 2);
  }

  lemma Powers()
    ensures Pow2(5) == 32 && Pow2(12) == 0x1000 && Pow2(13) == 0x2000 && Pow2(50) == 0x4_0000_0000_0000
  {
    hide Pow2;
    PowerOfNothing();
    Doubled(0);
    Doubled(5);
    Doubled(10);
    Doubled(15);
    Doubled(20);
    Doubled(25);
    Doubled(30);
    Doubled(35);
    Doubled(40);
    Doubled(45);
  }

  lemma PowerOfNothing()
    ensures Pow2(0) == 1
  {
  }

  lemma Doubled(k: nat)
    ensures Pow2(k + 2) == 4 * Pow2(k) && Pow2(k + 3) == 8 * Pow2(k) && Pow2(k + 5) == 32 * Pow2(k)
  {
    assert Pow2(k + 3) == 2 * Pow2(k + 2);
  }

  /** Bit 5 of the sample type asks for call chains, bit 12 for registers, bit 13 for stacks. */
  lemma FormatFlags(f: S.Format)
    ensures S.Has(f, S.PERF_SAMPLE_CALLCHAIN) <==> f.sampleType / 32 % 2 == 1
    ensures S.Has(f, S.PERF_SAMPLE_REGS_USER) <==> f.sampleType / 0x1000 % 2 == 1
    ensures S.Has(f, S.PERF_SAMPLE_STACK_USER) <==> f.sampleType / 0x2000 % 2 == 1
  {
    hide BitAnd, Pow2;
    Powers();
    FlagIsBit(f.sampleType, 5);
    FlagIsBit(f.sampleType, 12);
    FlagIsBit(f.sampleType, 13);
  }

  /** Take the lowest bit off a word that is compared with `2 * y + c`. */
  lemma LowBit(x: nat, y: nat, c: nat) returns (half: nat, bit: nat)
    requires c < 2
    ensures x == 2 * half + bit && bit < 2
    ensures BitAnd(x, 2 * y + c) == 0 <==> BitAnd(half, y) == 0 && (bit == 0 || c == 0)
  {
    half, bit := x / 2, x % 2;
    assert (2 * y + c) / 2 == y && (2 * y + c) % 2 == c;
    if half == 0 || y == 0 {
      assert BitAnd(half, y) == 0;
    }
  }

  /** All bits from 14 up are foreign to the formats known. */
  lemma HighBits(x: nat)
    requires x < 0x4_0000_0000_0000
    ensures BitAnd(x, 0x3_FFFF_FFFF_FFFF) == 0 <==> x == 0
  {
    hide Pow2, BitAnd;
    Powers();
    MaskIsModulo(x, 50);
  }

  /** Bits 0 to 2 may be set. */
  lemma RequiredBits(t0: nat) returns (t3: nat, low: nat)
    ensures t0 == 8 * t3 + low && low < 8
    ensures BitAnd(t0, 0xFFFFFFFFFFFFCFD8) == 0 <==> BitAnd(t3, 0x1FFFFFFFFFFFF9FB) == 0
  {
    hide BitAnd;
    var t1, b0 := LowBit(t0, 0x7FFFFFFFFFFFE7EC, 0);
    var t2, b1 := LowBit(t1, 0x3FFFFFFFFFFFF3F6, 0);
    var b2;
    t3, b2 := LowBit(t2, 0x1FFFFFFFFFFFF9FB, 0);
    low := b0 + 2 * b1 + 4 * b2;
  }

  /** Of bits 3 to 6 only bit 5 may be. */
  lemma ChainBits(t3: nat) returns (t7: nat, low: nat)
    ensures t3 == 16 * t7 + low && low < 16
    ensures BitAnd(t3, 0x1FFFFFFFFFFFF9FB) == 0 <==> BitAnd(t7, 0x1FFFFFFFFFFFF9F) == 0 && low in {0, 4}
  {
    hide BitAnd;
    var t4, b3 := LowBit(t3, 0xFFFFFFFFFFFFCFD, 1);
    var t5, b4 := LowBit(t4, 0x7FFFFFFFFFFFE7E, 1);
    var t6, b5 := LowBit(t5, 0x3FFFFFFFFFFFF3F, 0);
    var b6;
    t7, b6 := LowBit(t6, 0x1FFFFFFFFFFFF9F, 1);
    low := b3 + 2 * b4 + 4 * b5 + 8 * b6;
  }

  /** Of bits 7 to 10 none may be. */
  lemma UnusedBits(t7: nat) returns (t11: nat, low: nat)
    ensures t7 == 16 * t11 + low && low < 16
    ensures BitAnd(t7, 0x1FFFFFFFFFFFF9F) == 0 <==> BitAnd(t11, 0x1FFFFFFFFFFFF9) == 0 && low in {0}
  {
    hide BitAnd;
    var t8, b7 := LowBit(t7, 0xFFFFFFFFFFFFCF, 1);
    var t9, b8 := LowBit(t8, 0x7FFFFFFFFFFFE7, 1);
    var t10, b9 := LowBit(t9, 0x3FFFFFFFFFFFF3, 1);
    var b10;
    t11, b10 := LowBit(t10, 0x1FFFFFFFFFFFF9, 1);
    low := b7 + 2 * b8 + 4 * b9 + 8 * b10;
  }

  /** Of bits 11 to 13 only bits 12 and 13 may be. */
  lemma DumpBits(t11: nat) returns (t14: nat, low: nat)
    ensures t11 == 8 * t14 + low && low < 8
    ensures BitAnd(t11, 0x1FFFFFFFFFFFF9) == 0 <==> BitAnd(t14, 0x3FFFFFFFFFFFF) == 0 && low in {0, 2, 4, 6}
  {
    hide BitAnd;
    var t12, b11 := LowBit(t11, 0xFFFFFFFFFFFFC, 1);
    var t13, b12 := LowBit(t12, 0x7FFFFFFFFFFFE, 0);
    var b13;
    t14, b13 := LowBit(t13, 0x3FFFFFFFFFFFF, 0);
    low := b11 + 2 * b12 + 4 * b13;
  }

  /** The formats the decoder takes: address, ids and time always, and call chain, registers
      and stack each as the caller likes. */
  lemma SupportedFormats(f: S.Format)
    requires f.sampleType < U64_LIMIT
    ensures S.Supported(f) <==> f.sampleType in {7, 39, 0x1007, 0x1027, 0x2007, 0x2027, 0x3007, 0x3027}
  {
    hide BitAnd, Pow2;
    var t := f.sampleType;
    MaskIsModulo(t, 3);
    EightIs();
    var t3, required := RequiredBits(t);
    var t7, chain := ChainBits(t3);
    var t11, unused := UnusedBits(t7);
    var t14, dumps := DumpBits(t11);
    HighBits(t14);
  }

  lemma EightIs()
    ensures Pow2(3) == 8
  {
  }

  // --------------------------------------------------------- seen as it was built

  /** What a sample of a built record shows: its call chain, its registers if they are 64-bit
      ones, and the filled part of its stack. */
  ghost function ContentsView(c: S.Contents): S.View
    requires c.stack.Some? ==> c.stack.value.filled <= |c.stack.value.bytes|
  {
    S.View(
      if c.regs.Some? && c.regs.value.abi == 2 then Some(c.regs.value.values) else None,
      if c.stack.Some? then Some(c.stack.value.bytes[..c.stack.value.filled]) else None,
      c.chain)
  }

  /** A built record, decoded in place and read through its layout, shows its contents. */
  lemma SeenAsBuilt(c: S.Contents, f: S.Format, base: nat)
    requires S.Fits(c, f) && base % 8 == 0 && S.RegsKnown(c.regs) && S.WholeWords(c.stack)
    ensures var sample := S.Decode(S.Record(c), base, f);
      && sample.Some? && sample.value.pid == c.pid && sample.value.tid == c.tid && sample.value.time == c.time
      && S.ViewOf(sample.value.layout, S.Record(c), base) == Some(ContentsView(c))
  {
    S.RoundTrip(c, f, base);
    S.DetachKeepsView(Owned([]), S.Record(c), base, f, 0);
    hide S.Decode, S.Record, S.Words, S.Slice, S.Fits, Detached, S.LayoutEnd;
  }
}
