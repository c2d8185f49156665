/** Decoding perf sample records, and the record builder it must invert. */
module SampleRecord {
  import opened Bits
  import Ring

  // ------------------------------------------------------- little-endian words

  function Pow256(n: nat): (r: nat)
    ensures r > 0
  {
    if n == 0 then 1 else 256 * Pow256(n - 1)
  }

  function LE(v: nat, n: nat): (r: seq<Byte>)
    ensures |r| == n
  {
    if n == 0 then [] else [v % 256] + LE(v / 256, n - 1)
  }

  function FromLE(s: seq<Byte>): (v: nat) {
    if s == [] then 0 else s[0] + 256 * FromLE(s[1..])
  }

  lemma {:induction false} FromLEInverts(v: nat, n: nat)
    requires v < Pow256(n)
    ensures FromLE(LE(v, n)) == v
  {
    if n > 0 {
      FromLEInverts(v / 256, n - 1);
      assert LE(v, n)[1..] == LE(v / 256, n - 1);
    }
  }

  lemma WordSizes()
    ensures Pow256(2) == U16_LIMIT && Pow256(4) == U32_LIMIT && Pow256(8) == U64_LIMIT
  {
    assert Pow256(4) == 256 * 256 * Pow256(2);
    assert Pow256(6) == 256 * 256 * Pow256(4);
    assert Pow256(8) == 256 * 256 * Pow256(6);
  }

  lemma {:induction false} FromLEBound(s: seq<Byte>)
    ensures FromLE(s) < Pow256(|s|)
  {
    if s != [] {
      FromLEBound(s[1..]);
    }
  }

  function Encode(words: seq<nat>): (r: seq<Byte>)
    ensures |r| == 8 * |words|
  {
    if words == [] then [] else LE(words[0], 8) + Encode(words[1..])
  }

  function Words(bytes: seq<Byte>): (r: seq<nat>) {
    if |bytes| < 8 then [] else [FromLE(bytes[..8])] + Words(bytes[8..])
  }

  lemma {:induction false} WordsInvert(words: seq<nat>)
    requires forall w :: w in words ==> w < U64_LIMIT
    ensures Words(Encode(words)) == words
  {
    if words != [] {
      var bytes := Encode(words);
      assert words[0] in words;
      WordSizes();
      FromLEInverts(words[0], 8);
      assert forall w :: w in words[1..] ==> w in words;
      WordsInvert(words[1..]);
      assert bytes[..8] == LE(words[0], 8) && bytes[8..] == Encode(words[1..]);
    }
  }

  // ------------------------------------------------------------ sample formats

  const PERF_RECORD_SAMPLE: nat := 9
  const PERF_SAMPLE_IP: nat := 1
  const PERF_SAMPLE_TID: nat := 2
  const PERF_SAMPLE_TIME: nat := 4
  const PERF_SAMPLE_CALLCHAIN: nat := 32
  const PERF_SAMPLE_REGS_USER: nat := 4096
  const PERF_SAMPLE_STACK_USER: nat := 8192
  const REQUIRED_SAMPLE_TYPE: nat := PERF_SAMPLE_IP + PERF_SAMPLE_TID + PERF_SAMPLE_TIME
  const SUPPORTED_SAMPLE_TYPE: nat :=
    REQUIRED_SAMPLE_TYPE + PERF_SAMPLE_CALLCHAIN + PERF_SAMPLE_REGS_USER + PERF_SAMPLE_STACK_USER
  const ABI_NONE: nat := 0
  const ABI_32: nat := 1
  const ABI_64: nat := 2

  datatype Format = Format(sampleType: nat, userRegs: nat)

  predicate Has(f: Format, flag: nat) {
    BitAnd(f.sampleType, flag) != 0
  }

  predicate Supported(f: Format) {
    && BitAnd(f.sampleType, REQUIRED_SAMPLE_TYPE) == REQUIRED_SAMPLE_TYPE
    && BitAnd(f.sampleType, U64_LIMIT - 1 - SUPPORTED_SAMPLE_TYPE) == 0
  }

  datatype Priv = User | Kernel | Hv | GuestUser | GuestKernel | Unknown

  function PrivFromMisc(misc: nat): (p: Priv) {
    match misc % 8
    case 1 => Kernel
    case 2 => User
    case 3 => Hv
    case 4 => GuestKernel
    case 5 => GuestUser
    case _ => Unknown
  }

  predicate ExactIp(misc: nat) {
    Bit(misc, 14)
  }

  datatype Span = Span(start: nat, end: nat)

  function Slice(bytes: seq<Byte>, s: Span): (r: seq<Byte>) {
    if s.start <= s.end <= |bytes| then bytes[s.start..s.end] else []
  }

  /** Where the variable parts of a sample lie in its record. */
  datatype Layout = Layout(userRegs: Option<Span>, userStack: Option<Span>, callChain: Option<Span>)

  datatype Sample = Sample(
    privilege: Priv, ip: nat, exact: bool, pid: nat, tid: nat, time: nat, layout: Layout)

  /** One optional part: its span and where the next part starts. */
  datatype Part = Part(span: Option<Span>, next: nat) | Malformed

  function WordAt(bytes: seq<Byte>, at: nat): (w: nat) {
    FromLE(Slice(bytes, Span(at, at + 8)))
  }

  function ChainPart(bytes: seq<Byte>, base: nat, at: nat, present: bool): (p: Part) {
    if !present then Part(None, at)
    else if |bytes| < at + 8 then Malformed
    else
      var end := at + 8 + 8 * WordAt(bytes, at);
      if |bytes| < end || (base + at + 8) % 8 != 0 then Malformed
      else Part(Some(Span(at + 8, end)), end)
  }

  /** Only 64-bit registers are kept; 32-bit ones are skipped over. */
  function RegsPart(bytes: seq<Byte>, base: nat, at: nat, present: bool, count: nat): (p: Part) {
    if !present then Part(None, at)
    else if |bytes| < at + 8 then Malformed
    else
      var abi := WordAt(bytes, at) % U32_LIMIT;
      if abi == ABI_NONE then Part(None, at + 8)
      else if abi != ABI_32 && abi != ABI_64 then Malformed
      else
        var end := at + 8 + 8 * count;
        if |bytes| < end || (base + at + 8) % 8 != 0 then Malformed
        else Part(if abi == ABI_64 then Some(Span(at + 8, end)) else None, end)
  }

  /** The stack dump and, unless it is empty, how much of it was filled. */
  function StackPart(bytes: seq<Byte>, at: nat, present: bool): (p: Part) {
    if !present then Part(None, at)
    else if |bytes| < at + 8 then Malformed
    else
      var len := WordAt(bytes, at);
      var end := at + 8 + len;
      if |bytes| < end then Malformed
      else if len == 0 then Part(Some(Span(at + 8, at + 8)), end)
      else if |bytes| < end + 8 then Malformed
      else
        var filled := WordAt(bytes, end);
        if len < filled then Malformed else Part(Some(Span(at + 8, at + 8 + filled)), end + 8)
  }

  predicate IsSampleHeader(bytes: seq<Byte>) {
    && |bytes| >= 8
    && FromLE(bytes[0..4]) == PERF_RECORD_SAMPLE
    && FromLE(bytes[6..8]) == |bytes|
  }

  /** The decoder as a function of the record, its address and the format. */
  function Decode(bytes: seq<Byte>, base: nat, f: Format): (r: Option<Sample>) {
    if base % 8 != 0 || !IsSampleHeader(bytes) || !Supported(f) || |bytes| < 32 then None
    else
      var misc := FromLE(bytes[4..6]);
      var chain := ChainPart(bytes, base, 32, Has(f, PERF_SAMPLE_CALLCHAIN));
      if chain.Malformed? then None else
      var regs := RegsPart(bytes, base, chain.next, Has(f, PERF_SAMPLE_REGS_USER), f.userRegs);
      if regs.Malformed? then None else
      var stack := StackPart(bytes, regs.next, Has(f, PERF_SAMPLE_STACK_USER));
      if stack.Malformed? || stack.next != |bytes| then None else
      Some(Sample(
        PrivFromMisc(misc), WordAt(bytes, 8), ExactIp(misc),
        FromLE(bytes[16..20]), FromLE(bytes[20..24]), WordAt(bytes, 24),
        Layout(regs.span, stack.span, chain.span)))
  }

  predicate InBounds(s: Option<Span>, n: nat) {
    s.Some? ==> s.value.start <= s.value.end <= n
  }

  predicate WordSpan(s: Option<Span>) {
    s.Some? ==> s.value.start % 8 == 0 && (s.value.end - s.value.start) % 8 == 0
  }

  lemma PartBounds(bytes: seq<Byte>, base: nat, at: nat, present: bool, count: nat)
    requires base % 8 == 0
    ensures var p := ChainPart(bytes, base, at, present); p.Part? ==> InBounds(p.span, |bytes|) && WordSpan(p.span)
    ensures var p := RegsPart(bytes, base, at, present, count); p.Part? ==> InBounds(p.span, |bytes|) && WordSpan(p.span)
    ensures var p := StackPart(bytes, at, present); p.Part? ==> InBounds(p.span, |bytes|)
  {
    hide WordAt;
    if (base + at + 8) % 8 == 0 {
      WordSpanAt(base, at + 8, WordAt(bytes, at));
      WordSpanAt(base, at + 8, count);
    }
  }

  lemma WordSpanAt(base: nat, start: nat, words: nat)
    requires base % 8 == 0 && (base + start) % 8 == 0
    ensures WordSpan(Some(Span(start, start + 8 * words)))
  {
  }

  /** Nothing the decoder hands out lies outside the record, and word slices are aligned. */
  lemma DecodedInBounds(bytes: seq<Byte>, base: nat, f: Format)
    requires Decode(bytes, base, f).Some?
    ensures var l := Decode(bytes, base, f).value.layout;
      && InBounds(l.userRegs, |bytes|) && InBounds(l.userStack, |bytes|) && InBounds(l.callChain, |bytes|)
      && WordSpan(l.userRegs) && WordSpan(l.callChain)
  {
    var chain := ChainPart(bytes, base, 32, Has(f, PERF_SAMPLE_CALLCHAIN));
    PartBounds(bytes, base, 32, Has(f, PERF_SAMPLE_CALLCHAIN), 0);
    hide ChainPart, StackPart;
    PartBounds(bytes, base, chain.next, Has(f, PERF_SAMPLE_REGS_USER), f.userRegs);
    var regs := RegsPart(bytes, base, chain.next, Has(f, PERF_SAMPLE_REGS_USER), f.userRegs);
    hide RegsPart;
    PartBounds(bytes, base, regs.next, Has(f, PERF_SAMPLE_STACK_USER), 0);
  }

  // --------------------------------------------------------------- the builder

  datatype Regs = Regs(abi: nat, values: seq<nat>)
  datatype Dump = Dump(bytes: seq<Byte>, filled: nat)

  datatype Contents = Contents(
    misc: nat, ip: nat, pid: nat, tid: nat, time: nat,
    chain: Option<seq<nat>>, regs: Option<Regs>, stack: Option<Dump>)

  function ChainBytes(chain: Option<seq<nat>>): (r: seq<Byte>) {
    if chain == None then [] else LE(|chain.value|, 8) + Encode(chain.value)
  }

  function RegsBytes(regs: Option<Regs>): (r: seq<Byte>) {
    if regs == None then [] else LE(regs.value.abi, 8) + Encode(regs.value.values)
  }

  function StackBytes(stack: Option<Dump>): (r: seq<Byte>) {
    if stack == None then []
    else if stack.value.bytes == [] then LE(0, 8)
    else LE(|stack.value.bytes|, 8) + stack.value.bytes + LE(stack.value.filled, 8)
  }

  function FixedBytes(c: Contents): (r: seq<Byte>)
    ensures |r| == 24
  {
    LE(c.ip, 8) + LE(c.pid, 4) + LE(c.tid, 4) + LE(c.time, 8)
  }

  function Body(c: Contents): (r: seq<Byte>) {
    FixedBytes(c) + ChainBytes(c.chain) + RegsBytes(c.regs) + StackBytes(c.stack)
  }

  function Padding(n: nat): (r: seq<Byte>)
    ensures |r| == (8 - n % 8) % 8
  {
    seq((8 - n % 8) % 8, _ => 0)
  }

  function RecordSize(c: Contents): (n: nat) {
    8 + |Body(c)| + |Padding(|Body(c)|)|
  }

  /** The record: header with its final size, body, zeros up to a whole word. */
  function Record(c: Contents): (r: seq<Byte>)
    ensures |r| == RecordSize(c)
  {
    LE(PERF_RECORD_SAMPLE, 4) + LE(c.misc, 2) + LE(RecordSize(c), 2) + Body(c) + Padding(|Body(c)|)
  }

  predicate AllWords(words: seq<nat>) {
    forall w :: w in words ==> w < U64_LIMIT
  }

  /** Field values fit their widths and the parts present are those of the format. */
  predicate Fits(c: Contents, f: Format) {
    && Supported(f) && RecordSize(c) < U16_LIMIT
    && c.misc < U16_LIMIT && c.ip < U64_LIMIT && c.pid < U32_LIMIT && c.tid < U32_LIMIT && c.time < U64_LIMIT
    && (c.chain.Some? <==> Has(f, PERF_SAMPLE_CALLCHAIN))
    && (c.regs.Some? <==> Has(f, PERF_SAMPLE_REGS_USER))
    && (c.stack.Some? <==> Has(f, PERF_SAMPLE_STACK_USER))
    && (c.chain.Some? ==> AllWords(c.chain.value))
    && (c.regs.Some? ==> RegsFit(c.regs.value, f.userRegs))
    && (c.stack.Some? ==> c.stack.value.filled <= |c.stack.value.bytes|)
  }

  /** As many register words as the format has, or none at all where the ABI says so. */
  predicate RegsFit(r: Regs, count: nat) {
    && AllWords(r.values) && r.abi < U32_LIMIT
    && (|r.values| == count || (r.abi == ABI_NONE && r.values == []))
  }

  /** The registers are such that a decoder finds its way past them. */
  predicate RegsKnown(regs: Option<Regs>) {
    regs.Some? ==> regs.value.abi <= ABI_64 && (regs.value.abi == ABI_NONE ==> regs.value.values == [])
  }

  lemma SliceMiddle(bytes: seq<Byte>, pre: seq<Byte>, mid: seq<Byte>, post: seq<Byte>, s: Span)
    requires bytes == pre + mid + post && s == Span(|pre|, |pre| + |mid|)
    ensures Slice(bytes, s) == mid
  {
  }

  lemma WordMiddle(bytes: seq<Byte>, pre: seq<Byte>, v: nat, post: seq<Byte>)
    requires v < U64_LIMIT && bytes == pre + LE(v, 8) + post
    ensures |pre| + 8 <= |bytes| && WordAt(bytes, |pre|) == v
  {
    SliceMiddle(bytes, pre, LE(v, 8), post, Span(|pre|, |pre| + 8));
    WordSizes();
    FromLEInverts(v, 8);
  }

  lemma Regroup(pre: seq<Byte>, a: seq<Byte>, b: seq<Byte>, post: seq<Byte>)
    ensures pre + (a + b) + post == pre + a + (b + post)
    ensures pre + (a + b) + post == (pre + a) + b + post
  {
  }

  /** A counted or tagged word followed by words reads back as both. */
  lemma TaggedWords(bytes: seq<Byte>, pre: seq<Byte>, tag: nat, words: seq<nat>, post: seq<Byte>)
    requires bytes == pre + (LE(tag, 8) + Encode(words)) + post && tag < U64_LIMIT && AllWords(words)
    ensures |bytes| == |pre| + 8 + 8 * |words| + |post|
    ensures WordAt(bytes, |pre|) == tag
    ensures Words(Slice(bytes, Span(|pre| + 8, |pre| + 8 + 8 * |words|))) == words
  {
    hide LE, Encode, Words, WordAt, Slice;
    Regroup(pre, LE(tag, 8), Encode(words), post);
    WordMiddle(bytes, pre, tag, Encode(words) + post);
    SliceMiddle(bytes, pre + LE(tag, 8), Encode(words), post, Span(|pre| + 8, |pre| + 8 + 8 * |words|));
    WordsInvert(words);
  }

  lemma ChainRoundTrip(bytes: seq<Byte>, base: nat, pre: seq<Byte>, chain: Option<seq<nat>>, post: seq<Byte>)
    requires bytes == pre + ChainBytes(chain) + post && base % 8 == 0 && |pre| % 8 == 0 && |bytes| < U16_LIMIT
    requires chain.Some? ==> AllWords(chain.value)
    ensures var p := ChainPart(bytes, base, |pre|, chain.Some?);
      && p.Part? && p.next == |pre| + |ChainBytes(chain)| && (p.span.Some? <==> chain.Some?)
      && (chain.Some? ==> Words(Slice(bytes, p.span.value)) == chain.value)
  {
    hide LE, Encode, Words, WordAt, Slice;
    if chain.Some? {
      TaggedWords(bytes, pre, |chain.value|, chain.value, post);
    }
  }

  lemma RegsRoundTrip(bytes: seq<Byte>, base: nat, pre: seq<Byte>, regs: Option<Regs>, count: nat, post: seq<Byte>)
    requires bytes == pre + RegsBytes(regs) + post && base % 8 == 0 && |pre| % 8 == 0
    requires regs.Some? ==> RegsFit(regs.value, count)
    ensures var p := RegsPart(bytes, base, |pre|, regs.Some?, count);
      && (RegsKnown(regs) ==>
            && p.Part? && p.next == |pre| + |RegsBytes(regs)|
            && (p.span.Some? <==> regs.Some? && regs.value.abi == ABI_64)
            && (p.span.Some? ==> Words(Slice(bytes, p.span.value)) == regs.value.values))
      && (regs.Some? && regs.value.abi > ABI_64 ==> p == Malformed)
      && (regs.Some? && regs.value.abi == ABI_NONE ==> p == Part(None, |pre| + 8))
  {
    hide LE, Encode, Words, WordAt, Slice;
    if regs.Some? {
      TaggedWords(bytes, pre, regs.value.abi, regs.value.values, post);
    }
  }

  /** A dump with its length before it and its fill count after it. */
  lemma FramedDump(bytes: seq<Byte>, pre: seq<Byte>, data: seq<Byte>, filled: nat, post: seq<Byte>)
    requires bytes == pre + (LE(|data|, 8) + data + LE(filled, 8)) + post && filled <= |data| < U64_LIMIT
    ensures |bytes| == |pre| + 16 + |data| + |post|
    ensures WordAt(bytes, |pre|) == |data| && WordAt(bytes, |pre| + 8 + |data|) == filled
    ensures Slice(bytes, Span(|pre| + 8, |pre| + 8 + filled)) == data[..filled]
  {
    hide LE, WordAt;
    var head, tail := LE(|data|, 8), LE(filled, 8);
    Regroup(pre, head + data, tail, post);
    WordMiddle(bytes, pre + (head + data), filled, post);
    Regroup(pre, head, data, tail + post);
    WordMiddle(bytes, pre, |data|, data + (tail + post));
    SliceMiddle(bytes, pre + head, data, tail + post, Span(|pre| + 8, |pre| + 8 + |data|));
  }

  lemma StackRoundTrip(bytes: seq<Byte>, pre: seq<Byte>, stack: Option<Dump>, post: seq<Byte>)
    requires bytes == pre + StackBytes(stack) + post && |bytes| < U16_LIMIT
    requires stack.Some? ==> stack.value.filled <= |stack.value.bytes|
    ensures var p := StackPart(bytes, |pre|, stack.Some?);
      && p.Part? && p.next == |pre| + |StackBytes(stack)| && (p.span.Some? <==> stack.Some?)
      && (stack.Some? ==> Slice(bytes, p.span.value) == stack.value.bytes[..stack.value.filled])
  {
    hide LE, WordAt;
    if stack.Some? {
      if stack.value.bytes == [] {
        WordMiddle(bytes, pre, 0, post);
      } else {
        FramedDump(bytes, pre, stack.value.bytes, stack.value.filled, post);
      }
    }
  }

  function Header(misc: nat, size: nat): (r: seq<Byte>)
    ensures |r| == 8
  {
    LE(PERF_RECORD_SAMPLE, 4) + LE(misc, 2) + LE(size, 2)
  }

  lemma HeaderFields(bytes: seq<Byte>, misc: nat, size: nat, rest: seq<Byte>)
    requires bytes == Header(misc, size) + rest && misc < U16_LIMIT && size < U16_LIMIT
    ensures |bytes| >= 8 && FromLE(bytes[0..4]) == PERF_RECORD_SAMPLE
    ensures FromLE(bytes[4..6]) == misc && FromLE(bytes[6..8]) == size
  {
    WordSizes();
    FromLEInverts(PERF_RECORD_SAMPLE, 4);
    FromLEInverts(misc, 2);
    FromLEInverts(size, 2);
    hide LE, FromLE;
    assert bytes[0..4] == LE(PERF_RECORD_SAMPLE, 4);
    assert bytes[4..6] == LE(misc, 2);
    assert bytes[6..8] == LE(size, 2);
  }

  lemma FourFields(bytes: seq<Byte>, head: seq<Byte>, a: seq<Byte>, b: seq<Byte>, c: seq<Byte>, d: seq<Byte>,
                   rest: seq<Byte>)
    requires bytes == head + (a + b + c + d) + rest
    requires |head| == 8 && |a| == 8 && |b| == 4 && |c| == 4 && |d| == 8
    ensures |bytes| >= 32 && bytes[8..16] == a && bytes[16..20] == b && bytes[20..24] == c && bytes[24..32] == d
  {
  }

  lemma FixedFields(bytes: seq<Byte>, head: seq<Byte>, c: Contents, rest: seq<Byte>)
    requires bytes == head + FixedBytes(c) + rest && |head| == 8
    requires c.ip < U64_LIMIT && c.pid < U32_LIMIT && c.tid < U32_LIMIT && c.time < U64_LIMIT
    ensures |bytes| >= 32 && WordAt(bytes, 8) == c.ip && WordAt(bytes, 24) == c.time
    ensures FromLE(bytes[16..20]) == c.pid && FromLE(bytes[20..24]) == c.tid
  {
    hide LE, FromLE;
    WordSizes();
    FromLEInverts(c.ip, 8);
    FromLEInverts(c.pid, 4);
    FromLEInverts(c.tid, 4);
    FromLEInverts(c.time, 8);
    FourFields(bytes, head, LE(c.ip, 8), LE(c.pid, 4), LE(c.tid, 4), LE(c.time, 8), rest);
  }

  /** The privilege is that of the CPU mode in the low three bits of the header's flags. */
  ghost predicate HasMode(p: Priv, mode: nat) {
    && (p == Kernel <==> mode == 1) && (p == User <==> mode == 2) && (p == Hv <==> mode == 3)
    && (p == GuestKernel <==> mode == 4) && (p == GuestUser <==> mode == 5)
  }

  lemma FlagFields(misc: nat)
    ensures HasMode(PrivFromMisc(misc), misc % 8) && (ExactIp(misc) <==> misc / 0x4000 % 2 == 1)
  {
    assert Pow2(14) == 0x4000 by {
      assert Pow2(7) == 128;
      assert Pow2(11) == 16 * Pow2(7);
      assert Pow2(14) == 8 * Pow2(11);
    }
  }

  /** A span that is present exactly when the part was written shows what was written. */
  ghost predicate Shows(bytes: seq<Byte>, s: Sample, c: Contents) {
    && HasMode(s.privilege, c.misc % 8) && (s.exact <==> c.misc / 0x4000 % 2 == 1)
    && s.ip == c.ip && s.pid == c.pid && s.tid == c.tid && s.time == c.time
    && (s.layout.callChain.Some? <==> c.chain.Some?)
    && (c.chain.Some? ==> Words(Slice(bytes, s.layout.callChain.value)) == c.chain.value)
    && (s.layout.userRegs.Some? <==> c.regs.Some? && c.regs.value.abi == ABI_64)
    && (s.layout.userRegs.Some? ==> Words(Slice(bytes, s.layout.userRegs.value)) == c.regs.value.values)
    && (s.layout.userStack.Some? <==> c.stack.Some?)
    && (c.stack.Some? ==>
          && c.stack.value.filled <= |c.stack.value.bytes|
          && Slice(bytes, s.layout.userStack.value) == c.stack.value.bytes[..c.stack.value.filled])
  }

  predicate WholeWords(stack: Option<Dump>) {
    stack.Some? ==> |stack.value.bytes| % 8 == 0
  }

  lemma PartSizes(c: Contents)
    ensures |ChainBytes(c.chain)| % 8 == 0 && |RegsBytes(c.regs)| % 8 == 0
    ensures |Padding(|Body(c)|)| == 0 <==> WholeWords(c.stack)
  {
    hide LE, Encode, FixedBytes;
    var a, b, d := |ChainBytes(c.chain)|, |RegsBytes(c.regs)|, |StackBytes(c.stack)|;
    assert c.chain.Some? ==> a == 8 * (1 + |c.chain.value|);
    assert c.regs.Some? ==> b == 8 * (1 + |c.regs.value.values|);
    assert c.stack.Some? ==> d == if c.stack.value.bytes == [] then 8 else 16 + |c.stack.value.bytes|;
    WordMultiples(a, b, d);
    assert |Body(c)| == 24 + a + b + d;
    assert d % 8 == 0 <==> WholeWords(c.stack);
  }

  lemma WordMultiples(a: nat, b: nat, d: nat)
    requires a % 8 == 0 && b % 8 == 0
    ensures (24 + a + b + d) % 8 == d % 8
  {
  }

  lemma RegroupParts(h: seq<Byte>, x: seq<Byte>, a: seq<Byte>, b: seq<Byte>, d: seq<Byte>, p: seq<Byte>)
    ensures h + (x + a + b + d) + p == h + (x + a + b + d + p)
    ensures h + (x + a + b + d) + p == h + x + (a + b + d + p)
    ensures h + (x + a + b + d) + p == (h + x) + a + (b + d + p)
    ensures h + (x + a + b + d) + p == (h + x + a) + b + (d + p)
    ensures h + (x + a + b + d) + p == (h + x + a + b) + d + p
  {
  }

  /** Where the word after the ABI of the registers lies. */
  function AfterAbi(c: Contents): (n: nat) {
    8 + 24 + |ChainBytes(c.chain)| + 8
  }

  /** A built record with registers the decoder knows decodes exactly when its stack dump
      is a whole number of words, and then every field comes back; otherwise the padding is
      refused. An unknown ABI is always refused. Register words under ABI none are not
      skipped: the decoder takes them for the stack part, and the record decodes exactly
      if they happen to frame the rest of it. */
  lemma RoundTrip(c: Contents, f: Format, base: nat)
    requires Fits(c, f) && base % 8 == 0
    ensures RegsKnown(c.regs) ==> (Decode(Record(c), base, f).Some? <==> WholeWords(c.stack))
    ensures RegsKnown(c.regs) && WholeWords(c.stack) ==> Shows(Record(c), Decode(Record(c), base, f).value, c)
    ensures c.regs.Some? && c.regs.value.abi > ABI_64 ==> Decode(Record(c), base, f) == None
    ensures c.regs.Some? && c.regs.value.abi == ABI_NONE ==>
      (Decode(Record(c), base, f).Some? <==>
        var p := StackPart(Record(c), AfterAbi(c), c.stack.Some?); p.Part? && p.next == |Record(c)|)
  {
    var bytes := Record(c);
    var h, x, p := Header(c.misc, RecordSize(c)), FixedBytes(c), Padding(|Body(c)|);
    var a, b, d := ChainBytes(c.chain), RegsBytes(c.regs), StackBytes(c.stack);
    RegroupParts(h, x, a, b, d, p);
    assert bytes == h + (x + a + b + d) + p;
    PartSizes(c);
    hide Header, FixedBytes, Body, Record, ChainBytes, RegsBytes, StackBytes, Padding, RegsFit, AllWords;
    hide ChainPart, RegsPart, StackPart, Slice, Words, WordAt, FromLE, LE, RecordSize;
    PartsRoundTrip(c, f, base, bytes, h, x, a, b, d, p);
  }

  lemma PartsRoundTrip(c: Contents, f: Format, base: nat, bytes: seq<Byte>,
                       h: seq<Byte>, x: seq<Byte>, a: seq<Byte>, b: seq<Byte>, d: seq<Byte>, p: seq<Byte>)
    requires Fits(c, f) && base % 8 == 0 && |bytes| == RecordSize(c)
    requires h == Header(c.misc, RecordSize(c)) && x == FixedBytes(c)
    requires a == ChainBytes(c.chain) && b == RegsBytes(c.regs) && d == StackBytes(c.stack)
    requires |a| % 8 == 0 && |b| % 8 == 0 && (p == [] <==> WholeWords(c.stack))
    requires bytes == h + (x + a + b + d + p) == h + x + (a + b + d + p) == (h + x) + a + (b + d + p)
    requires bytes == (h + x + a) + b + (d + p) == (h + x + a + b) + d + p
    ensures RegsKnown(c.regs) ==> (Decode(bytes, base, f).Some? <==> WholeWords(c.stack))
    ensures RegsKnown(c.regs) && WholeWords(c.stack) ==> Shows(bytes, Decode(bytes, base, f).value, c)
    ensures c.regs.Some? && c.regs.value.abi > ABI_64 ==> Decode(bytes, base, f) == None
    ensures c.regs.Some? && c.regs.value.abi == ABI_NONE ==>
      (Decode(bytes, base, f).Some? <==> var p := StackPart(bytes, |h + x + a| + 8, c.stack.Some?); p.Part? && p.next == |bytes|)
  {
    hide Header, FixedBytes, ChainBytes, RegsBytes, StackBytes, RegsFit, AllWords;
    hide ChainPart, RegsPart, StackPart, Slice, Words, WordAt, FromLE, LE, RecordSize, Supported, Has;
    FlagFields(c.misc);
    hide PrivFromMisc, ExactIp, HasMode;
    HeaderFields(bytes, c.misc, RecordSize(c), x + a + b + d + p);
    FixedFields(bytes, h, c, a + b + d + p);
    ChainRoundTrip(bytes, base, h + x, c.chain, b + d + p);
    RegsRoundTrip(bytes, base, h + x + a, c.regs, f.userRegs, d + p);
    StackRoundTrip(bytes, h + x + a + b, c.stack, p);
    assert |h + x| == 32;
    assert |h + x + a + b + d + p| == |bytes|;
  }

  // ---------------------------------------------------------- detached samples

  /** What a queued sample is later read as. */
  datatype View = View(userRegs: Option<seq<nat>>, userStack: Option<seq<Byte>>, callChain: Option<seq<nat>>)

  function SpanEnd(s: Option<Span>): (n: nat) {
    if s.Some? then s.value.end else 0
  }

  /** End of the last part a sample still needs. */
  function LayoutEnd(l: Layout): (n: nat) {
    Max(SpanEnd(l.userRegs), Max(SpanEnd(l.userStack), SpanEnd(l.callChain)))
  }

  predicate Readable(bytes: seq<Byte>, s: Option<Span>) {
    s.Some? ==> s.value.start <= s.value.end <= |bytes|
  }

  predicate ReadableWords(bytes: seq<Byte>, base: nat, s: Option<Span>) {
    s.Some? ==> Readable(bytes, s) && (base + s.value.start) % 8 == 0 && (s.value.end - s.value.start) % 8 == 0
  }

  function Look(bytes: seq<Byte>, s: Option<Span>): (r: Option<seq<Byte>>) {
    if s.Some? then Some(Slice(bytes, s.value)) else None
  }

  function LookWords(bytes: seq<Byte>, s: Option<Span>): (r: Option<seq<nat>>) {
    if s.Some? then Some(Words(Slice(bytes, s.value))) else None
  }

  /** Read a sample through its layout; fails if a part is cut off or misaligned. */
  function ViewOf(l: Layout, bytes: seq<Byte>, base: nat): (r: Option<View>) {
    if ReadableWords(bytes, base, l.userRegs) && Readable(bytes, l.userStack) && ReadableWords(bytes, base, l.callChain)
    then Some(View(LookWords(bytes, l.userRegs), Look(bytes, l.userStack), LookWords(bytes, l.callChain)))
    else None
  }

  lemma PrefixSlice(bytes: seq<Byte>, n: nat, s: Span)
    requires s.start <= s.end <= n <= |bytes|
    ensures Slice(bytes[..n], s) == Slice(bytes, s)
  {
  }

  /** Detaching a decoded sample, which drops everything past its last part,
      changes nothing that is later read from it, wherever the copy lies. */
  lemma DetachKeepsView(storage: Ring.Storage, bytes: seq<Byte>, base: nat, f: Format, copyBase: nat)
    requires Decode(bytes, base, f).Some? && copyBase % 8 == 0
    ensures var l := Decode(bytes, base, f).value.layout;
      && ViewOf(l, bytes, base).Some?
      && ViewOf(l, Ring.Detached(storage, bytes, LayoutEnd(l)), copyBase) == ViewOf(l, bytes, base)
  {
    DecodedInBounds(bytes, base, f);
    assert base % 8 == 0;
    hide Decode, Words, Slice, InBounds, WordSpan, Look, LookWords, Readable, ReadableWords, LayoutEnd;
    var l := Decode(bytes, base, f).value.layout;
    var copy := Ring.Detached(storage, bytes, LayoutEnd(l));
    LastEnds(l);
    PartKept(storage, bytes, LayoutEnd(l), base, copyBase, l.userRegs);
    PartKept(storage, bytes, LayoutEnd(l), base, copyBase, l.userStack);
    PartKept(storage, bytes, LayoutEnd(l), base, copyBase, l.callChain);
  }

  lemma LastEnds(l: Layout)
    ensures SpanEnd(l.userRegs) <= LayoutEnd(l) && SpanEnd(l.userStack) <= LayoutEnd(l)
    ensures SpanEnd(l.callChain) <= LayoutEnd(l)
  {
  }

  lemma PartKept(storage: Ring.Storage, bytes: seq<Byte>, end: nat, base: nat, copyBase: nat, s: Option<Span>)
    requires base % 8 == 0 && copyBase % 8 == 0 && InBounds(s, |bytes|) && SpanEnd(s) <= end
    ensures var copy := Ring.Detached(storage, bytes, end);
      && Readable(bytes, s) && Readable(copy, s) && Look(copy, s) == Look(bytes, s)
      && LookWords(copy, s) == LookWords(bytes, s)
      && (WordSpan(s) ==> ReadableWords(bytes, base, s) && ReadableWords(copy, copyBase, s))
  {
    hide Words;
    if s.Some? && Ring.Detached(storage, bytes, end) != bytes {
      PrefixSlice(bytes, end, s.value);
    }
  }

  // ------------------------------------------------------ the imperative decoder

  /** A bounded reading position in a record. */
  class ByteCursor {
    const bytes: seq<Byte>
    const base: nat
    var offset: nat

    ghost predicate Valid()
      reads this
    {
      offset <= |bytes| <= USIZE_MAX
    }

    constructor (bytes: seq<Byte>, base: nat)
      requires |bytes| <= USIZE_MAX
      ensures Valid() && this.bytes == bytes && this.base == base && offset == 0
    {
      this.bytes, this.base, offset := bytes, base, 0;
    }

    /** Take the next `len` bytes, or nothing if the record is too short. */
    method ReadBytes(len: nat) returns (r: Option<Span>)
      requires Valid()
      modifies this
      ensures Valid()
      ensures if old(offset) + len <= |bytes|
        then r == Some(Span(old(offset), offset)) && offset == old(offset) + len
        else r == None && offset == old(offset)
    {
      if offset + len > USIZE_MAX || offset + len > |bytes| {
        return None;
      }
      r := Some(Span(offset, offset + len));
      offset := offset + len;
    }

    /** Take a little-endian number of `n` bytes. */
    method ReadNumber(n: nat) returns (r: Option<nat>)
      requires Valid()
      modifies this
      ensures Valid()
      ensures if old(offset) + n <= |bytes|
        then r == Some(FromLE(Slice(bytes, Span(old(offset), offset)))) && offset == old(offset) + n
        else r == None && offset == old(offset)
    {
      var s := ReadBytes(n);
      if s.Some? {
        r := Some(FromLE(Slice(bytes, s.value)));
      } else {
        r := None;
      }
    }

    /** Take `len` words that must be aligned in memory. */
    method ReadU64Slice(len: nat) returns (r: Option<Span>)
      requires Valid()
      modifies this
      ensures Valid()
      ensures r.Some? <==> old(offset) + 8 * len <= |bytes| && (base + old(offset)) % 8 == 0
      ensures r.Some? ==> r.value == Span(old(offset), offset) && offset == old(offset) + 8 * len
    {
      if 8 * len > USIZE_MAX {
        return None;
      }
      r := ReadBytes(8 * len);
      if r.Some? && (base + r.value.start) % 8 != 0 {
        r := None;
      }
    }

    method ParseCallChain(present: bool) returns (p: Part)
      requires Valid()
      modifies this
      ensures Valid() && p == ChainPart(bytes, base, old(offset), present)
      ensures p.Part? ==> offset == p.next
    {
      if !present {
        return Part(None, offset);
      }
      var len := ReadNumber(8);
      if len == None {
        return Malformed;
      }
      var s := ReadU64Slice(len.value);
      if s == None {
        return Malformed;
      }
      return Part(s, offset);
    }

    method ParseUserRegs(present: bool, count: nat) returns (p: Part)
      requires Valid()
      modifies this
      ensures Valid() && p == RegsPart(bytes, base, old(offset), present, count)
      ensures p.Part? ==> offset == p.next
    {
      if !present {
        return Part(None, offset);
      }
      var word := ReadNumber(8);
      if word == None {
        return Malformed;
      }
      var abi := word.value % U32_LIMIT;
      if abi == ABI_NONE {
        return Part(None, offset);
      }
      if abi != ABI_32 && abi != ABI_64 {
        return Malformed;
      }
      var s := ReadU64Slice(count);
      if s == None {
        return Malformed;
      }
      return Part(if abi == ABI_64 then s else None, offset);
    }

    method ParseUserStack(present: bool) returns (p: Part)
      requires Valid()
      modifies this
      ensures Valid() && p == StackPart(bytes, old(offset), present)
      ensures p.Part? ==> offset == p.next
    {
      if !present {
        return Part(None, offset);
      }
      var len := ReadNumber(8);
      if len == None {
        return Malformed;
      }
      var s := ReadBytes(len.value);
      if s == None {
        return Malformed;
      }
      var filled := 0;
      if len.value != 0 {
        var word := ReadNumber(8);
        if word == None {
          return Malformed;
        }
        filled := word.value;
      }
      if filled > len.value {
        return Malformed;
      }
      return Part(Some(Span(s.value.start, s.value.start + filled)), offset);
    }
  }

  /** Decode one record with a cursor. */
  method ParseSampleRecord(bytes: seq<Byte>, base: nat, f: Format) returns (r: Option<Sample>)
    requires |bytes| <= USIZE_MAX
    ensures r == Decode(bytes, base, f)
  {
    hide BitAnd, FromLE, ChainPart, RegsPart, StackPart;
    if base % 8 != 0 {
      return None;
    }
    var cursor := new ByteCursor(bytes, base);
    var recordType := cursor.ReadNumber(4);
    if recordType == None { return None; }
    var misc := cursor.ReadNumber(2);
    if misc == None { return None; }
    var size := cursor.ReadNumber(2);
    if size == None || recordType.value != PERF_RECORD_SAMPLE || size.value != |bytes| || !Supported(f) {
      return None;
    }
    var ip := cursor.ReadNumber(8);
    if ip == None { return None; }
    var pid := cursor.ReadNumber(4);
    if pid == None { return None; }
    var tid := cursor.ReadNumber(4);
    if tid == None { return None; }
    var time := cursor.ReadNumber(8);
    if time == None { return None; }
    r := ParseParts(cursor, f, misc.value, ip.value, pid.value, tid.value, time.value);
  }

  method ParseParts(cursor: ByteCursor, f: Format, misc: nat, ip: nat, pid: nat, tid: nat, time: nat)
      returns (r: Option<Sample>)
    requires cursor.Valid() && cursor.offset == 32 && cursor.base % 8 == 0
    requires IsSampleHeader(cursor.bytes) && Supported(f) && misc == FromLE(cursor.bytes[4..6])
    requires ip == WordAt(cursor.bytes, 8) && time == WordAt(cursor.bytes, 24)
    requires pid == FromLE(cursor.bytes[16..20]) && tid == FromLE(cursor.bytes[20..24])
    modifies cursor
    ensures r == Decode(cursor.bytes, cursor.base, f)
  {
    hide BitAnd, FromLE, Slice, ChainPart, RegsPart, StackPart, WordAt, ExactIp, PrivFromMisc;
    var chain := cursor.ParseCallChain(Has(f, PERF_SAMPLE_CALLCHAIN));
    if chain.Malformed? { return None; }
    var regs := cursor.ParseUserRegs(Has(f, PERF_SAMPLE_REGS_USER), f.userRegs);
    if regs.Malformed? { return None; }
    var stack := cursor.ParseUserStack(Has(f, PERF_SAMPLE_STACK_USER));
    if stack.Malformed? || cursor.offset != |cursor.bytes| { return None; }
    r := Some(Sample(PrivFromMisc(misc), ip, ExactIp(misc), pid, tid, time, Layout(regs.span, stack.span, chain.span)));
  }

  method PushWords(bytes: seq<Byte>, words: seq<nat>) returns (r: seq<Byte>)
    ensures r == bytes + Encode(words)
  {
    r := bytes;
    for i := 0 to |words|
      invariant r == bytes + Encode(words[..i])
    {
      EncodeSnoc(words, i);
      r := r + LE(words[i], 8);
    }
    assert words[..|words|] == words;
  }

  lemma {:induction false} EncodeSnoc(words: seq<nat>, i: nat)
    requires i < |words|
    ensures Encode(words[..i + 1]) == Encode(words[..i]) + LE(words[i], 8)
  {
    hide LE;
    if i == 0 {
      assert words[..1] == [words[0]] && words[..0] == [];
      assert Encode([words[0]]) == LE(words[0], 8) + Encode([]);
    } else {
      EncodeSnoc(words[1..], i - 1);
      assert words[..i + 1][1..] == words[1..][..i] && words[..i][1..] == words[1..][..i - 1];
      ConcatAssociative(LE(words[0], 8), Encode(words[1..][..i - 1]), LE(words[i], 8));
    }
  }

  /** Push the fields one after the other, pad, and patch the size into the header. */
  method BuildRecord(c: Contents) returns (bytes: seq<Byte>)
    requires RecordSize(c) < U16_LIMIT
    ensures bytes == Record(c)
  {
    hide LE, Encode, FixedBytes, ChainBytes, RegsBytes, StackBytes, Padding;
    var body := PushFixed(c);
    body := PushChain(body, c.chain);
    body := PushRegs(body, c.regs);
    body := PushStack(body, c.stack);
    var start := LE(PERF_RECORD_SAMPLE, 4) + LE(c.misc, 2);
    bytes := start + LE(0, 2) + body + Padding(|body|);
    var size := LE(|bytes|, 2);
    bytes := PatchSize(bytes, start, body + Padding(|body|), size);
    assert body == Body(c);
    assert bytes == Record(c);
  }

  method PatchSize(bytes: seq<Byte>, ghost start: seq<Byte>, ghost rest: seq<Byte>, size: seq<Byte>)
      returns (r: seq<Byte>)
    requires |start| == 6 && |size| == 2 && bytes == start + LE(0, 2) + rest
    ensures r == start + size + rest
  {
    hide LE;
    r := bytes[6 := size[0]][7 := size[1]];
  }

  method PushFixed(c: Contents) returns (r: seq<Byte>)
    ensures r == FixedBytes(c)
  {
    hide LE;
    r := LE(c.ip, 8);
    r := r + LE(c.pid, 4);
    r := r + LE(c.tid, 4);
    r := r + LE(c.time, 8);
  }

  method PushChain(bytes: seq<Byte>, chain: Option<seq<nat>>) returns (r: seq<Byte>)
    ensures r == bytes + ChainBytes(chain)
  {
    hide LE, Encode;
    r := bytes;
    if chain.Some? {
      r := PushWords(r + LE(|chain.value|, 8), chain.value);
    }
  }

  method PushRegs(bytes: seq<Byte>, regs: Option<Regs>) returns (r: seq<Byte>)
    ensures r == bytes + RegsBytes(regs)
  {
    hide LE, Encode;
    r := bytes;
    if regs.Some? {
      r := PushWords(r + LE(regs.value.abi, 8), regs.value.values);
    }
  }

  method PushStack(bytes: seq<Byte>, stack: Option<Dump>) returns (r: seq<Byte>)
    ensures r == bytes + StackBytes(stack)
  {
    hide LE;
    r := bytes;
    if stack.Some? {
      r := r + LE(|stack.value.bytes|, 8);
      if stack.value.bytes != [] {
        r := r + stack.value.bytes + LE(stack.value.filled, 8);
      }
    }
  }
}
