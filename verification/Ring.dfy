/** The reader side of one perf mmap ring: records are handed out without a
    copy unless they wrap, and ring space is released as they are dropped. */
module Ring {
  import opened Bits
  import opened Commits

  datatype ReadError =
    | HeadRegressed
    | MoreThanCapacity
    | PartialHeader
    | PositionOverflow
    | InvalidLength
    | PartialRecord

  datatype Read<+T> = Record(record: T) | AtEnd | Failed(error: ReadError)

  /** Storage of a record: still in the ring, or copied out because it wrapped. */
  datatype Storage =
    | Mapped(range: Range, offset: nat, len: nat)
    | Owned(bytes: seq<Byte>)

  datatype Range = Range(from: nat, limit: nat)

  // ---------------------------------------------------------------- flat stream

  function SizeField(low: Byte, high: Byte): (r: nat)
    ensures r < U16_LIMIT
  {
    low + 256 * high
  }

  predicate IsRecord(bytes: seq<Byte>, capacity: nat) {
    8 <= |bytes| <= capacity && SizeField(bytes[6], bytes[7]) == |bytes|
  }

  datatype Framing = Framing(records: seq<seq<Byte>>, error: Option<ReadError>)

  /** Reference framing of an unwrapped stream: no ring, no positions. */
  function Split(stream: seq<Byte>, capacity: nat): (r: Framing) {
    if stream == [] then Framing([], None)
    else if |stream| < 8 then Framing([], Some(PartialHeader))
    else
      var len := SizeField(stream[6], stream[7]);
      if len < 8 || capacity < len then Framing([], Some(InvalidLength))
      else if |stream| < len then Framing([], Some(PartialRecord))
      else
        var rest := Split(stream[len..], capacity);
        Framing([stream[..len]] + rest.records, rest.error)
  }

  function Join(records: seq<seq<Byte>>): (r: seq<Byte>) {
    if records == [] then [] else records[0] + Join(records[1..])
  }

  /** Framing is the inverse of concatenating complete records. */
  lemma {:induction false} SplitJoin(records: seq<seq<Byte>>, capacity: nat)
    requires forall r :: r in records ==> IsRecord(r, capacity)
    ensures Split(Join(records), capacity) == Framing(records, None)
  {
    if records != [] {
      var rest := Join(records[1..]);
      SplitJoin(records[1..], capacity);
      assert records[0] in records;
      assert Join(records)[6] == records[0][6] && Join(records)[7] == records[0][7];
      assert Join(records)[|records[0]|..] == rest;
      assert Join(records)[..|records[0]|] == records[0];
      assert [records[0]] + records[1..] == records;
    }
  }

  // ------------------------------------------------------------ slots and ranges

  function Slot(position: nat, capacity: nat): (r: nat)
    requires capacity > 0
    ensures r < capacity
  {
    position % capacity
  }

  /** Every published position the kernel may not reuse still holds its byte. */
  ghost predicate Intact(data: seq<Byte>, tail: nat, head: nat, base: nat, published: seq<Byte>)
    requires |data| > 0 && base <= tail && head == base + |published|
  {
    forall p {:trigger Slot(p, |data|)} :: tail <= p < head ==> data[Slot(p, |data|)] == published[p - base]
  }

  lemma IntactAt(data: seq<Byte>, tail: nat, head: nat, base: nat, published: seq<Byte>, p: nat)
    requires |data| > 0 && base <= tail && head == base + |published|
    requires Intact(data, tail, head, base, published) && tail <= p < head
    ensures data[p % |data|] == published[p - base]
  {
    assert Slot(p, |data|) == p % |data|;
  }

  lemma IntactLater(data: seq<Byte>, tail: nat, later: nat, head: nat, base: nat, published: seq<Byte>)
    requires |data| > 0 && base <= tail <= later && head == base + |published|
    requires Intact(data, tail, head, base, published)
    ensures Intact(data, later, head, base, published)
  {
  }

  lemma WriteKeepsIntact(data: seq<Byte>, tail: nat, head: nat, base: nat, published: seq<Byte>, at: nat, b: Byte)
    requires |data| > 0 && base <= tail <= head == base + |published|
    requires Intact(data, tail, head, base, published)
    requires head <= at < tail + |data|
    ensures Intact(data[Slot(at, |data|) := b], tail, head, base, published)
  {
    forall p | tail <= p < head
      ensures data[Slot(at, |data|) := b][Slot(p, |data|)] == published[p - base]
    {
      DistinctSlots(p, at, |data|);
    }
  }

  /** The bytes in the slots of `n` consecutive positions. */
  ghost function SlotBytes(data: seq<Byte>, from: nat, n: nat): (r: seq<Byte>)
    requires |data| > 0
  {
    seq(n, i requires 0 <= i < n => data[Slot(from + i, |data|)])
  }

  lemma PublishKeepsIntact(data: seq<Byte>, tail: nat, head: nat, base: nat, published: seq<Byte>, n: nat)
    requires |data| > 0 && base <= tail && head == base + |published|
    requires Intact(data, tail, head, base, published)
    ensures Intact(data, tail, head + n, base, published + SlotBytes(data, head, n))
  {
    var all := published + SlotBytes(data, head, n);
    forall p | tail <= p < head + n
      ensures data[Slot(p, |data|)] == all[p - base]
    {
      if head <= p { assert all[p - base] == SlotBytes(data, head, n)[p - head]; }
    }
  }

  /** Bytes of a range that does not wrap sit contiguously at its offset. */
  lemma ContiguousBytes(data: seq<Byte>, tail: nat, head: nat, base: nat, published: seq<Byte>, from: nat, len: nat)
    requires |data| > 0 && base <= tail <= from && from + len <= head == base + |published|
    requires Intact(data, tail, head, base, published)
    requires Slot(from, |data|) + len <= |data|
    ensures data[Slot(from, |data|)..Slot(from, |data|) + len] == published[from - base..from - base + len]
  {
    var offset := Slot(from, |data|);
    var piece, want := data[offset..offset + len], published[from - base..from - base + len];
    forall i | 0 <= i < len
      ensures piece[i] == want[i]
    {
      ShiftedModulo(from, i, |data|);
      assert Slot(from + i, |data|) == offset + i;
    }
  }

  /** Bytes of a wrapped range are its two pieces put together. */
  lemma WrappedBytes(data: seq<Byte>, tail: nat, head: nat, base: nat, published: seq<Byte>, from: nat, len: nat)
    requires |data| > 0 && base <= tail <= from && from + len <= head == base + |published|
    requires Intact(data, tail, head, base, published)
    requires len <= |data| < Slot(from, |data|) + len
    ensures data[Slot(from, |data|)..] + data[..len - (|data| - Slot(from, |data|))]
         == published[from - base..from - base + len]
  {
    var offset := Slot(from, |data|);
    var copy := data[offset..] + data[..len - (|data| - offset)];
    var want := published[from - base..from - base + len];
    forall i | 0 <= i < len
      ensures copy[i] == want[i]
    {
      ShiftedModulo(from, i, |data|);
      assert Slot(from + i, |data|) == if offset + i < |data| then offset + i else offset + i - |data|;
    }
  }

  ghost predicate InLive(live: set<Range>, p: nat) {
    exists r :: r in live && r.from <= p < r.limit
  }

  /** Every position read so far is either complete or inside exactly one live record. */
  ghost predicate Accounted(base: nat, readPos: nat, done: set<nat>, live: set<Range>) {
    && (forall p :: p in done ==> base <= p < readPos)
    && (forall r :: r in live ==> base <= r.from < r.limit <= readPos && done !! Span(r.from, r.limit))
    && (forall r, s :: r in live && s in live && r != s ==> r.limit <= s.from || s.limit <= r.from)
    && (forall p {:trigger InLive(live, p)} :: base <= p < readPos && p !in done ==> InLive(live, p))
  }

  lemma AccountMapped(base: nat, readPos: nat, done: set<nat>, live: set<Range>, limit: nat)
    requires Accounted(base, readPos, done, live) && base <= readPos < limit
    ensures Accounted(base, limit, done, live + {Range(readPos, limit)})
  {
    forall p | base <= p < limit && p !in done
      ensures InLive(live + {Range(readPos, limit)}, p)
    {
      if p < readPos {
        assert InLive(live, p);
        var r :| r in live && r.from <= p < r.limit;
        assert r in live + {Range(readPos, limit)};
      } else {
        assert Range(readPos, limit) in live + {Range(readPos, limit)};
      }
    }
  }

  lemma LiveIsRead(base: nat, readPos: nat, done: set<nat>, live: set<Range>, r: Range)
    requires Accounted(base, readPos, done, live) && r in live
    ensures base <= r.from < r.limit <= readPos
  {
  }

  lemma DoneIsBehind(base: nat, readPos: nat, done: set<nat>, live: set<Range>, limit: nat)
    requires Accounted(base, readPos, done, live)
    ensures done !! Span(readPos, limit)
  {
  }

  lemma AccountCopied(base: nat, readPos: nat, done: set<nat>, live: set<Range>, limit: nat)
    requires Accounted(base, readPos, done, live) && base <= readPos < limit
    ensures Accounted(base, limit, done + Span(readPos, limit), live)
  {
  }

  lemma AccountDropped(base: nat, readPos: nat, done: set<nat>, live: set<Range>, r: Range)
    requires Accounted(base, readPos, done, live) && r in live
    ensures Accounted(base, readPos, done + Span(r.from, r.limit), live - {r})
  {
    forall p | base <= p < readPos && p !in done + Span(r.from, r.limit)
      ensures InLive(live - {r}, p)
    {
      assert InLive(live, p);
      var s :| s in live && s.from <= p < s.limit;
      assert s in live - {r};
    }
  }

  /** The tail is behind every live record and behind the reader. */
  lemma TailIsBehind(base: nat, readPos: nat, done: set<nat>, live: set<Range>, tail: nat, pending: map<nat, nat>)
    requires Represents(base, done, tail, pending) && Accounted(base, readPos, done, live)
    requires base <= readPos
    ensures base <= tail <= readPos
    ensures forall r :: r in live ==> tail <= r.from
  {
    assert readPos !in done;
    forall r | r in live
      ensures tail <= r.from
    {
      assert r.from in Span(r.from, r.limit);
    }
  }

  /** With no live record left, the tail has caught up and nothing is pending. */
  lemma NothingLive(base: nat, readPos: nat, done: set<nat>, tail: nat, pending: map<nat, nat>)
    requires Represents(base, done, tail, pending) && Accounted(base, readPos, done, {})
    requires base <= readPos
    ensures tail == readPos && pending == map[]
  {
    forall p | base <= p < readPos
      ensures p in done
    {
      assert !InLive({}, p);
    }
    assert done == Span(base, readPos);
    NothingPendingWhenComplete(base, readPos, tail, pending);
  }

  // ------------------------------------------------------------------- the ring

  class RingBuffer {
    const exponent: nat
    const data: array<Byte>
    const commits: CommitState
    var head: nat
    var tail: nat
    var readPos: nat
    ghost var published: seq<Byte>
    ghost var live: set<Range>

    ghost predicate Valid()
      reads this, data, commits
    {
      && data.Length == Pow2(exponent)
      && commits.Valid() && tail == commits.committed
      && commits.base <= readPos <= head == commits.base + |published|
      && head <= tail + data.Length && head < U64_LIMIT
      && Accounted(commits.base, readPos, commits.done, live)
      && Intact(data[..], tail, head, commits.base, published)
    }

    /** A handle whose record has not been dropped. */
    ghost predicate Holds(s: Storage)
      reads this
    {
      s.Mapped? ==>
        && s.range in live
        && s.len == s.range.limit - s.range.from
        && s.offset == Slot(s.range.from, Pow2(exponent)) && s.offset + s.len <= Pow2(exponent)
    }

    /** What the kernel published at the positions of a range. */
    ghost function PublishedIn(r: Range): seq<Byte>
      requires commits.base <= r.from <= r.limit <= commits.base + |published|
      reads this
    {
      published[r.from - commits.base..r.limit - commits.base]
    }

    constructor (exponent: nat, committed: nat)
      requires committed < U64_LIMIT
      ensures Valid() && fresh(data) && fresh(commits)
      ensures this.exponent == exponent
      ensures head == tail == readPos == committed && published == [] && live == {}
      ensures data[..] == seq(Pow2(exponent), _ => 0) && commits.base == committed
    {
      this.exponent := exponent;
      data := new Byte[Pow2(exponent)](_ => 0);
      commits := new CommitState(committed);
      head, tail, readPos := committed, committed, committed;
      published, live := [], {};
    }

    /** The bytes published where a handle's record lies. */
    ghost function Origin(s: Storage): seq<Byte>
      reads this
    {
      match s
      case Mapped(r, _, _) =>
        if commits.base <= r.from <= r.limit <= commits.base + |published| then PublishedIn(r) else []
      case Owned(bytes) => bytes
    }

    /** The bytes a handle shows, a slice of the ring or its own copy: always
        the bytes that were published. */
    function AsBytes(s: Storage): (r: seq<Byte>)
      requires Valid() && Holds(s)
      reads this, data, commits
      ensures r == Origin(s)
    {
      match s
      case Mapped(range, offset, len) =>
        MappedShows(s);
        data[offset..offset + len]
      case Owned(bytes) => bytes
    }

    /** The slice of the ring a live handle refers to holds what was published there. */
    lemma MappedShows(s: Storage)
      requires Valid() && Holds(s) && s.Mapped?
      ensures s.offset + s.len <= data.Length && data[s.offset..s.offset + s.len] == Origin(s)
    {
      hide Represents, Accounted, Intact, SlotBytes, Slot;
      TailIsBehind(commits.base, readPos, commits.done, live, commits.committed, commits.pending);
      LiveIsRead(commits.base, readPos, commits.done, live, s.range);
      ContiguousBytes(data[..], tail, head, commits.base, published, s.range.from, s.len);
      assert data[..][s.offset..s.offset + s.len] == data[s.offset..s.offset + s.len];
    }

    /** One byte stored by the kernel in space it owns, before it is published. */
    method KernelWrite(position: nat, b: Byte)
      requires Valid() && head <= position < tail + data.Length
      modifies data
      ensures Valid()
      ensures data[..] == old(data[..])[Slot(position, data.Length) := b]
    {
      TailIsBehind(commits.base, readPos, commits.done, live, commits.committed, commits.pending);
      WriteKeepsIntact(data[..], tail, head, commits.base, published, position, b);
      data[Slot(position, data.Length)] := b;
      assert data[..] == old(data[..])[Slot(position, data.Length) := b];
    }

    /** The kernel advances the head over the bytes it has written. */
    method KernelPublish(n: nat)
      requires Valid() && head + n <= tail + data.Length && head + n < U64_LIMIT
      modifies this`head, this`published
      ensures Valid()
      ensures head == old(head) + n
      ensures published == old(published) + SlotBytes(data[..], old(head), n)
    {
      PublishKeepsIntact(data[..], tail, head, commits.base, published, n);
      published := published + SlotBytes(data[..], head, n);
      head := head + n;
    }

    /** Return a range to the bookkeeping and publish the tail if it moved. */
    method CompleteRange(r: Range)
      requires commits.Valid() && tail == commits.committed
      requires tail <= r.from < r.limit && commits.done !! Span(r.from, r.limit)
      modifies this`tail, commits
      ensures commits.Valid() && tail == commits.committed && old(tail) <= tail
      ensures commits.done == old(commits.done) + Span(r.from, r.limit)
    {
      var moved := commits.Complete(r.from, r.limit);
      if moved {
        tail := commits.committed;
      }
    }

    /** The published bytes between the read position and a captured head. */
    ghost function Unread(limit: nat): seq<Byte>
      requires commits.base <= readPos <= limit <= commits.base + |published|
      reads this
    {
      published[readPos - commits.base..limit - commits.base]
    }

    /** What the memory shows between the read position and a head: for a published
        head, the published bytes. */
    ghost function Exposed(limit: nat): seq<Byte>
      requires readPos <= limit && data.Length > 0
      reads this, data
    {
      SlotBytes(data[..], readPos, limit - readPos)
    }

    lemma ExposedIsPublished(limit: nat)
      requires Valid() && readPos <= limit <= head
      ensures Exposed(limit) == Unread(limit)
    {
      TailIsBehind(commits.base, readPos, commits.done, live, commits.committed, commits.pending);
      hide Represents, Accounted;
      forall i | 0 <= i < limit - readPos
        ensures Exposed(limit)[i] == Unread(limit)[i]
      {
        IntactAt(data[..], tail, head, commits.base, published, readPos + i);
      }
    }

    /** The checks before a record is handed out, for any head; yields the record's length. */
    method CheckNext(limit: nat) returns (r: Read<nat>)
      requires Valid() && limit < U64_LIMIT
      ensures r == Failed(HeadRegressed) <==> limit < readPos
      ensures r == Failed(MoreThanCapacity) <==> readPos + data.Length < limit
      ensures readPos <= limit <= readPos + data.Length ==>
        match r
        case AtEnd => Split(Exposed(limit), data.Length) == Framing([], None)
        case Failed(e) => Split(Exposed(limit), data.Length) == Framing([], Some(e))
        case Record(len) => readPos + len <= limit && len <= data.Length && IsRecord(Exposed(limit)[..len], data.Length)
    {
      hide Represents, Accounted, Intact;
      if limit == readPos {
        return AtEnd;
      }
      if limit < readPos {
        return Failed(HeadRegressed);
      }
      var available := limit - readPos;
      if available > data.Length {
        return Failed(MoreThanCapacity);
      }
      if available < 8 {
        return Failed(PartialHeader);
      }
      if readPos + 6 >= U64_LIMIT {
        return Failed(PositionOverflow);
      }
      var len := SizeField(data[Mask(readPos + 6, exponent)], data[Mask(readPos + 7, exponent)]);
      assert Exposed(limit)[6] == data[Slot(readPos + 6, data.Length)];
      assert Exposed(limit)[7] == data[Slot(readPos + 7, data.Length)];
      if len < 8 || data.Length < len {
        return Failed(InvalidLength);
      }
      if len > available {
        return Failed(PartialRecord);
      }
      if readPos + len >= U64_LIMIT {
        return Failed(PositionOverflow);
      }
      return Record(len);
    }

    /** Hand out `len` bytes at the read position: in place, or copied if they wrap. */
    method Take(len: nat) returns (s: Storage)
      requires Valid() && 0 < len <= data.Length && readPos + len <= head
      modifies this`tail, this`readPos, this`live, commits
      ensures Valid() && Holds(s)
      ensures readPos == old(readPos) + len && old(tail) <= tail
      ensures Origin(s) == PublishedIn(Range(old(readPos), readPos))
      ensures live == old(live) + (if s.Mapped? then {Range(old(readPos), readPos)} else {})
      ensures s.Mapped? <==> Slot(old(readPos), data.Length) + len <= data.Length
      ensures s.Mapped? ==> s.range == Range(old(readPos), readPos) && tail == old(tail)
    {
      hide Represents, Accounted, Intact, Span;
      TailIsBehind(commits.base, readPos, commits.done, live, commits.committed, commits.pending);
      DoneIsBehind(commits.base, readPos, commits.done, live, readPos + len);
      var offset := Mask(readPos, exponent);
      assert offset == Slot(readPos, data.Length);
      var range := Range(readPos, readPos + len);
      if offset + len <= data.Length {
        AccountMapped(commits.base, readPos, commits.done, live, range.limit);
        s := Mapped(range, offset, len);
        live := live + {range};
      } else {
        WrappedBytes(data[..], tail, head, commits.base, published, readPos, len);
        var bytes := data[offset..] + data[..len - (data.Length - offset)];
        AccountCopied(commits.base, readPos, commits.done, live, range.limit);
        ghost var before := tail;
        CompleteRange(range);
        IntactLater(data[..], before, tail, head, commits.base, published);
        s := Owned(bytes);
      }
      readPos := range.limit;
    }

    /** Hand out the record at the read position, if `limit` (a head captured
        earlier) exposes one. A failed or empty read changes nothing. */
    method NextRecordTo(limit: nat) returns (r: Read<Storage>)
      requires Valid() && limit < U64_LIMIT && (limit <= head || readPos + data.Length < limit)
      modifies this`tail, this`readPos, this`live, commits
      ensures Valid()
      ensures r == Failed(HeadRegressed) <==> limit < old(readPos)
      ensures r == Failed(MoreThanCapacity) <==> old(readPos) + data.Length < limit
      ensures !r.Record? ==> unchanged(this) && unchanged(commits)
      ensures old(readPos) <= limit <= old(readPos) + data.Length ==>
        match r
        case AtEnd => Split(old(Unread(limit)), data.Length) == Framing([], None)
        case Failed(e) => Split(old(Unread(limit)), data.Length) == Framing([], Some(e))
        case Record(s) =>
          && Holds(s)
          && readPos == old(readPos) + |Origin(s)| <= limit
          && Origin(s) == old(Unread(limit))[..|Origin(s)|]
          && IsRecord(Origin(s), data.Length)
          && live == old(live) + (if s.Mapped? then {s.range} else {})
          && (s.Mapped? <==> Slot(old(readPos), data.Length) + |Origin(s)| <= data.Length)
          && (s.Mapped? ==> s.range == Range(old(readPos), readPos) && tail == old(tail))
    {
      hide Represents, Accounted, Intact, Split, SlotBytes;
      TailIsBehind(commits.base, readPos, commits.done, live, commits.committed, commits.pending);
      var next := CheckNext(limit);
      if readPos <= limit <= head {
        ExposedIsPublished(limit);
      }
      match next
      case AtEnd => return AtEnd;
      case Failed(e) => return Failed(e);
      case Record(len) =>
        SliceOfSlice(published, readPos - commits.base, limit - commits.base, len);
        var s := Take(len);
        return Record(s);
    }

    /** Drop a handle; ring space it still occupies is completed. */
    method Drop(s: Storage)
      requires Valid() && Holds(s)
      modifies this`tail, this`live, commits
      ensures Valid() && old(tail) <= tail
      ensures live == old(live) - (if s.Mapped? then {s.range} else {})
    {
      if s.Mapped? {
        TailIsBehind(commits.base, readPos, commits.done, live, commits.committed, commits.pending);
        AccountDropped(commits.base, readPos, commits.done, live, s.range);
        CompleteRange(s.range);
        live := live - {s.range};
      }
    }

    /** Copy at most `len` bytes out of the ring and drop the handle. A record
        that wrapped already owns all of its bytes. */
    method Detach(s: Storage, len: nat) returns (bytes: seq<Byte>)
      requires Valid() && Holds(s)
      modifies this`tail, this`live, commits
      ensures Valid() && old(tail) <= tail
      ensures bytes == Detached(s, Origin(s), len)
      ensures live == old(live) - (if s.Mapped? then {s.range} else {})
    {
      bytes := AsBytes(s);
      if s.Mapped? {
        bytes := bytes[..if len < |bytes| then len else |bytes|];
      }
      Drop(s);
    }

    /** Every handle is held and shows its record. */
    ghost predicate Shows(records: seq<Storage>, bytes: seq<seq<Byte>>)
      reads this
    {
      && |records| == |bytes|
      && forall i :: 0 <= i < |records| ==> Holds(records[i]) && Origin(records[i]) == bytes[i]
    }

    /** Read one more record of a drain into `records`. */
    method DrainOne(limit: nat, records: seq<Storage>, ghost bytes: seq<seq<Byte>>)
        returns (r: Read<Storage>, ghost b: seq<Byte>)
      requires Valid() && readPos <= limit <= head && Shows(records, bytes)
      modifies this`tail, this`readPos, this`live, commits
      ensures Valid() && old(readPos) <= readPos <= limit
      ensures match r
        case AtEnd => Split(old(Unread(limit)), data.Length) == Framing([], None) && readPos == limit && live == old(live) && Shows(records, bytes)
        case Failed(e) => Split(old(Unread(limit)), data.Length) == Framing([], Some(e)) && live == old(live) && Shows(records, bytes)
        case Record(s) =>
          && old(readPos) < readPos
          && Shows(records + [s], bytes + [b])
          && live == old(live) + (if s.Mapped? then {s.range} else {})
          && Split(old(Unread(limit)), data.Length).records == [b] + Split(Unread(limit), data.Length).records
          && Split(old(Unread(limit)), data.Length).error == Split(Unread(limit), data.Length).error
    {
      hide Represents, Accounted, Intact, Split, Slot;
      TailIsBehind(commits.base, readPos, commits.done, live, commits.committed, commits.pending);
      ghost var from, stream := readPos - commits.base, Unread(limit);
      r := NextRecordTo(limit);
      b := [];
      if r.Record? {
        b := Origin(r.record);
        SliceOfSlice(published, from, limit - commits.base, |b|);
        SplitFirst(stream, |b|, data.Length);
      } else if r.AtEnd? {
        NothingFramed(stream, data.Length);
      }
    }

    /** Read every record up to a captured head, keeping all of them. */
    method Drain(limit: nat) returns (records: seq<Storage>, error: Option<ReadError>)
      requires Valid() && readPos <= limit <= head
      modifies this`tail, this`readPos, this`live, commits
      ensures Valid()
      ensures live == old(live) + RangesOf(records)
      ensures Shows(records, Split(old(Unread(limit)), data.Length).records)
      ensures error == Split(old(Unread(limit)), data.Length).error
      ensures error == None ==> readPos == limit
    {
      hide Represents, Accounted, Intact, Split, IsRecord;
      records := [];
      ghost var stream := Unread(limit);
      ghost var got: seq<seq<Byte>> := [];
      while true
        invariant Valid() && readPos <= limit <= head
        invariant Shows(records, got)
        invariant live == old(live) + RangesOf(records)
        invariant Split(stream, data.Length).records == got + Split(Unread(limit), data.Length).records
        invariant Split(stream, data.Length).error == Split(Unread(limit), data.Length).error
        decreases limit - readPos
      {
        var next, b := DrainOne(limit, records, got);
        match next
        case AtEnd =>
          assert got + [] == got;
          return records, None;
        case Failed(e) =>
          assert got + [] == got;
          return records, Some(e);
        case Record(s) =>
          RangesOfAppend(records, s);
          records := records + [s];
          ConcatAssociative(got, [b], Split(Unread(limit), data.Length).records);
          got := got + [b];
      }
    }

    method DetachFirst(records: seq<Storage>, ghost bytes: seq<seq<Byte>>, len: nat) returns (copy: seq<Byte>)
      requires Valid() && records != [] && Disjoint(records)
      requires Shows(records, bytes) && live == RangesOf(records)
      modifies this`tail, this`live, commits
      ensures Valid()
      ensures Shows(records[1..], bytes[1..]) && live == RangesOf(records[1..])
      ensures copy == Detached(records[0], bytes[0], len)
    {
      hide Represents, Accounted, Intact;
      DisjointTail(records);
      copy := Detach(records[0], len);
    }

    /** Detach every held record: the tail then meets the read position. */
    method DetachAll(records: seq<Storage>, ghost bytes: seq<seq<Byte>>, lens: seq<nat>)
        returns (copies: seq<seq<Byte>>)
      requires Valid() && |lens| == |records| && Disjoint(records)
      requires Shows(records, bytes) && live == RangesOf(records)
      modifies this`tail, this`live, commits
      ensures Valid() && live == {} && tail == readPos && commits.pending == map[]
      ensures |copies| == |records|
      ensures forall i :: 0 <= i < |records| ==> copies[i] == Detached(records[i], bytes[i], lens[i])
    {
      hide Represents, Accounted, Intact, Split, IsRecord, Detached;
      copies := [];
      while |copies| < |records|
        invariant Valid() && |copies| <= |records|
        invariant Shows(records[|copies|..], bytes[|copies|..]) && live == RangesOf(records[|copies|..])
        invariant forall i :: 0 <= i < |copies| ==> copies[i] == Detached(records[i], bytes[i], lens[i])
      {
        ghost var k := |copies|;
        assert records[k..][1..] == records[k + 1..] && bytes[k..][1..] == bytes[k + 1..];
        var copy := DetachFirst(records[|copies|..], bytes[k..], lens[|copies|]);
        copies := copies + [copy];
      }
      assert records[|copies|..] == [];
      NothingLive(commits.base, readPos, commits.done, commits.committed, commits.pending);
    }

    /** The ring and the handles in use do what the flat world `w` says. */
    ghost predicate Refines(w: World, held: map<nat, Storage>)
      reads this, data, commits
    {
      && Valid() && WorldOk(w)
      && data[..] == w.memory && commits.base == w.base && published == w.published && readPos == ReadPos(w)
      && Mirrors(w, live, held)
    }

    /** In a refined world the tail is the start of the first record still in place. */
    lemma TailMatches(w: World, held: map<nat, Storage>)
      requires Refines(w, held)
      ensures tail == TailOf(w) && commits.base <= tail <= readPos && head == Head(w)
    {
      hide Intact, IsRecord;
      FirstIncomplete(w, commits.done, live, held, tail, commits.pending);
      TailIsBehind(commits.base, readPos, commits.done, live, commits.committed, commits.pending);
    }

    method WriteStep(position: nat, b: Byte, ghost w: World, ghost held: map<nat, Storage>)
      requires Refines(w, held)
      modifies data
      ensures Refines(StepWorld(w, Write(position, b)), held)
      ensures StepWorld(w, Write(position, b)).received == w.received
    {
      TailMatches(w, held);
      hide TailOf, IsRecord, Represents, Accounted, Intact, Slot, Mirrors, Join, Span;
      MirrorsSame(w, StepWorld(w, Write(position, b)), live, held);
      if head <= position < tail + data.Length {
        KernelWrite(position, b);
      }
    }

    method PublishStep(n: nat, ghost w: World, ghost held: map<nat, Storage>)
      requires Refines(w, held)
      modifies this`head, this`published
      ensures Refines(StepWorld(w, Publish(n)), held)
      ensures StepWorld(w, Publish(n)).received == w.received
    {
      TailMatches(w, held);
      hide TailOf, IsRecord, Represents, Accounted, Intact, SlotBytes, Mirrors, Join;
      MirrorsSame(w, StepWorld(w, Publish(n)), live, held);
      if head + n <= tail + data.Length && head + n < U64_LIMIT {
        KernelPublish(n);
      }
    }

    /** Give a handle back, by dropping or by detaching it. */
    method ReleaseStep(step: Step, i: nat, ghost w: World, held: map<nat, Storage>)
        returns (held': map<nat, Storage>)
      requires Refines(w, held) && (step == Release(i) || (step.DetachTo? && step.handle == i))
      modifies this`tail, this`live, commits
      ensures Refines(StepWorld(w, step), held') && StepWorld(w, step).received == w.received
    {
      hide IsRecord, Represents, Accounted, Intact, Split, Join, InPlace, Mirrors;
      held' := held - {i};
      if i in held {
        HeldFits(w, live, held, i);
        HandleFits(w, i, held[i]);
        ReleaseMirrors(w, live, held, i);
        if step.DetachTo? {
          var _ := Detach(held[i], step.len);
        } else {
          Drop(held[i]);
        }
      } else {
        NotHeld(w, live, held, i);
      }
    }

    lemma HandleFits(w: World, i: nat, s: Storage)
      requires Valid() && WorldOk(w) && Fits(w, i, s) && |w.memory| == data.Length
      requires s.Mapped? ==> s.range in live
      ensures Holds(s)
    {
      StartNext(w, i);
    }

    /** A read that exposes a record hands it out as the next handle. */
    method ReadNow(limit: nat, ghost w: World, held: map<nat, Storage>, count: nat)
        returns (held': map<nat, Storage>, got: seq<seq<Byte>>)
      requires Refines(w, held) && count == |w.received| && tail <= readPos && head == Head(w)
      requires limit < U64_LIMIT && (limit <= head || readPos + data.Length < limit)
      modifies this`tail, this`readPos, this`live, commits
      ensures Refines(StepWorld(w, ReadTo(limit)), held')
      ensures StepWorld(w, ReadTo(limit)).received == w.received + got
    {
      hide Represents, Accounted, Intact, IsRecord, Slot, Join, Start, InPlace, StepWorld, WorldOk, Mirrors, Split;
      var r := NextRecordTo(limit);
      if r.Record? {
        var bytes := AsBytes(r.record);
        held', got := held[count := r.record], [bytes];
        RecordRead(limit, w, old(live), held, r.record, bytes);
      } else {
        held', got := held, [];
        NothingRead(w, limit);
      }
    }

    method ReadStep(limit: nat, ghost w: World, held: map<nat, Storage>, count: nat)
        returns (held': map<nat, Storage>, got: seq<seq<Byte>>)
      requires Refines(w, held) && count == |w.received|
      modifies this`tail, this`readPos, this`live, commits
      ensures Refines(StepWorld(w, ReadTo(limit)), held')
      ensures StepWorld(w, ReadTo(limit)).received == w.received + got
    {
      TailMatches(w, held);
      hide Start, StepWorld, RingBuffer.Refines;
      if limit < U64_LIMIT && (limit <= head || readPos + data.Length < limit) {
        held', got := ReadNow(limit, w, held, count);
      } else {
        held', got := held, [];
        NothingRead(w, limit);
      }
    }

    /** After a successful read the ring refines the world after that read. */
    lemma RecordRead(limit: nat, w: World, before: set<Range>, held: map<nat, Storage>, s: Storage, bytes: seq<Byte>)
      requires Valid() && WorldOk(w) && Mirrors(w, before, held)
      requires data[..] == w.memory && commits.base == w.base && published == w.published
      requires ReadPos(w) <= limit <= Head(w) && readPos == ReadPos(w) + |bytes| <= limit
      requires bytes == UnreadIn(w, limit)[..|bytes|] && IsRecord(bytes, |w.memory|)
      requires Holds(s) && (s.Mapped? <==> Slot(ReadPos(w), |w.memory|) + |bytes| <= |w.memory|)
      requires s.Mapped? ==> s.range == Range(ReadPos(w), readPos)
      requires s.Owned? ==> s.bytes == bytes
      requires live == before + (if s.Mapped? then {s.range} else {})
      ensures Refines(StepWorld(w, ReadTo(limit)), held[|w.received| := s])
      ensures StepWorld(w, ReadTo(limit)).received == w.received + [bytes]
    {
      hide TailOf, Represents, Accounted, Intact, IsRecord, Slot, Join, Start, InPlace, StepWorld, WorldOk, Mirrors, Split, Fits;
      ReadWorld(w, limit, bytes);
      var r := StepWorld(w, ReadTo(limit));
      ReadExtends(w, r, s, bytes);
      ReadMirrors(w, r, before, held, s);
    }

    /** The ring does what the flat world says, with the handles that world tells. */
    ghost predicate Tracks(w: World)
      reads this, data, commits
    {
      |w.memory| > 0 && Refines(w, Handles(w))
    }

    /** Read the next record up to a published head. */
    method TakeNext(limit: nat, ghost w: World) returns (r: Read<Storage>)
      requires Tracks(w) && limit <= head
      modifies this`tail, this`readPos, this`live, commits
      ensures Tracks(StepWorld(w, ReadTo(limit))) && r == ReadOf(w, limit)
    {
      hide Represents, Accounted, Intact, IsRecord, Slot, Join, Start, InPlace, StepWorld, WorldOk, Mirrors, Split, Handles, HandleAt, Fits, TailOf, ReadOf;
      TailMatches(w, Handles(w));
      r := NextRecordTo(limit);
      if r.Record? {
        ghost var bytes := Origin(r.record);
        RecordRead(limit, w, old(live), Handles(w), r.record, bytes);
        ReadHandles(w, limit, bytes, live, r.record);
      } else {
        NothingTaken(w, limit, r);
      }
    }

    /** A handle in use shows the record it was read as. */
    lemma HandleShows(w: World, i: nat)
      requires Tracks(w) && i in w.live
      ensures i < |w.received| && Valid() && Holds(HandleAt(w, i)) && Origin(HandleAt(w, i)) == w.received[i]
    {
      hide Represents, Accounted, Intact, IsRecord, Join;
      assert i in Handles(w);
      HeldFits(w, live, Handles(w), i);
      HandleFits(w, i, HandleAt(w, i));
      ShowsReceived(w, i);
    }

    /** Give a handle back. */
    method Free(s: Storage, ghost w: World, ghost i: nat)
      requires Tracks(w) && i in w.live && i < |w.received| && s == HandleAt(w, i)
      modifies this`tail, this`live, commits
      ensures Tracks(StepWorld(w, Release(i)))
    {
      hide Represents, Accounted, Intact, IsRecord, Join, InPlace, Mirrors, HandleAt, Handles, Slot, WorldOk, RingBuffer.Holds;
      HandleShows(w, i);
      ReleaseHandles(w, live, i);
      Drop(s);
    }

    /** Copy at most `len` bytes of a record out of the ring and give its handle back. */
    method CopyOut(s: Storage, len: nat, ghost w: World, ghost i: nat) returns (bytes: seq<Byte>)
      requires Tracks(w) && i in w.live && i < |w.received| && s == HandleAt(w, i)
      modifies this`tail, this`live, commits
      ensures Tracks(StepWorld(w, DetachTo(i, len))) && bytes == Detached(s, w.received[i], len)
    {
      hide Represents, Accounted, Intact, IsRecord, Join, InPlace, Mirrors, HandleAt, Handles, Slot, Detached, WorldOk, RingBuffer.Holds;
      HandleShows(w, i);
      ReleaseHandles(w, live, i);
      bytes := Detach(s, len);
    }

    /** With no handle in use, the tail has caught up with the reader. */
    lemma NothingInUse(w: World)
      requires Tracks(w) && w.live == {}
      ensures live == {} && tail == readPos && commits.pending == map[]
    {
      hide Represents, Accounted, Intact, IsRecord, Join;
      assert Handles(w) == map[];
      assert live == {};
      NothingLive(commits.base, readPos, commits.done, commits.committed, commits.pending);
    }

    /** One step of the kernel or of the reader; a step that is not enabled does nothing. */
    method Act(step: Step, ghost w: World, held: map<nat, Storage>, count: nat)
        returns (held': map<nat, Storage>, got: seq<seq<Byte>>)
      requires Refines(w, held) && count == |w.received|
      modifies this, data, commits
      ensures Refines(StepWorld(w, step), held')
      ensures StepWorld(w, step).received == w.received + got
    {
      hide *;
      held', got := held, [];
      assert w.received + [] == w.received;
      match step
      case Write(position, b) =>
        WriteStep(position, b, w, held);
      case Publish(n) =>
        PublishStep(n, w, held);
      case ReadTo(limit) =>
        held', got := ReadStep(limit, w, held, count);
      case Release(i) =>
        held' := ReleaseStep(step, i, w, held);
      case DetachTo(i, _) =>
        held' := ReleaseStep(step, i, w, held);
    }
  }

  // ------------------------------------------------------------- whole protocols

  datatype Step =
    | Write(position: nat, b: Byte)
    | Publish(n: nat)
    | ReadTo(limit: nat)
    | Release(handle: nat)
    | DetachTo(handle: nat, len: nat)

  datatype Positions = Positions(tail: nat, readPos: nat, head: nat)

  /** The protocol without completion bookkeeping: everything ever published is one flat
      stream, handles are numbers of received records, and no received record is ever
      overwritten. */
  datatype World = World(
    memory: seq<Byte>, base: nat, published: seq<Byte>, received: seq<seq<Byte>>, live: set<nat>)

  ghost function StartWorld(exponent: nat, committed: nat): World {
    World(seq(Pow2(exponent), _ => 0), committed, [], [], {})
  }

  ghost function Head(w: World): nat {
    w.base + |w.published|
  }

  /** Where received record `i` starts. */
  ghost function Start(w: World, i: nat): (r: nat)
    requires i <= |w.received|
    ensures w.base <= r
  {
    w.base + |Join(w.received[..i])|
  }

  ghost function ReadPos(w: World): nat {
    Start(w, |w.received|)
  }

  /** A record that does not wrap is handed out without a copy. */
  ghost predicate InPlace(w: World, i: nat)
    requires i < |w.received| && |w.memory| > 0
  {
    Start(w, i) % |w.memory| + |w.received[i]| <= |w.memory|
  }

  /** Start of the first record from `i` on that is still in use in place. */
  ghost function TailFrom(w: World, i: nat): nat
    requires |w.memory| > 0 && i <= |w.received|
    decreases |w.received| - i
  {
    if i == |w.received| then ReadPos(w)
    else if i in w.live && InPlace(w, i) then Start(w, i)
    else TailFrom(w, i + 1)
  }

  ghost function TailOf(w: World): nat
    requires |w.memory| > 0
  {
    TailFrom(w, 0)
  }

  ghost function UnreadIn(w: World, limit: nat): seq<Byte> {
    if ReadPos(w) <= limit <= Head(w) then w.published[ReadPos(w) - w.base..limit - w.base] else []
  }

  ghost function PositionsOf(w: World): Positions
    requires |w.memory| > 0
  {
    Positions(TailOf(w), ReadPos(w), Head(w))
  }

  ghost function StepWorld(w: World, step: Step): (r: World)
    requires |w.memory| > 0
    ensures |r.memory| == |w.memory|
  {
    match step
    case Write(position, b) =>
      if Head(w) <= position < TailOf(w) + |w.memory|
      then w.(memory := w.memory[Slot(position, |w.memory|) := b]) else w
    case Publish(n) =>
      if Head(w) + n <= TailOf(w) + |w.memory| && Head(w) + n < U64_LIMIT
      then w.(published := w.published + SlotBytes(w.memory, Head(w), n)) else w
    case ReadTo(limit) =>
      var records := Split(UnreadIn(w, limit), |w.memory|).records;
      if records == [] then w
      else w.(received := w.received + [records[0]], live := w.live + {|w.received|})
    case Release(i) => w.(live := w.live - {i})
    case DetachTo(i, _) => w.(live := w.live - {i})
  }

  ghost function RunWorld(w: World, schedule: seq<Step>): (r: World)
    requires |w.memory| > 0
    ensures |r.memory| == |w.memory|
  {
    if schedule == [] then w
    else StepWorld(RunWorld(w, schedule[..|schedule| - 1]), schedule[|schedule| - 1])
  }

  /** What every reachable world satisfies. */
  ghost predicate WorldOk(w: World) {
    && |w.memory| > 0
    && Join(w.received) <= w.published
    && (forall i :: 0 <= i < |w.received| ==> IsRecord(w.received[i], |w.memory|))
    && (forall i :: i in w.live ==> i < |w.received|)
  }

  /** A handle of record `i`: in place or copied, as the record's position demands. */
  ghost predicate Fits(w: World, i: nat, s: Storage)
    requires |w.memory| > 0
  {
    && i < |w.received| && (s.Mapped? <==> InPlace(w, i))
    && (s.Mapped? ==>
          && s.range == Range(Start(w, i), Start(w, i + 1)) && s.len == |w.received[i]|
          && s.offset == Slot(Start(w, i), |w.memory|))
    && (s.Owned? ==> s.bytes == w.received[i])
  }

  /** The handle of a received record: the record's position decides which it is. */
  ghost function HandleAt(w: World, i: nat): Storage
    requires |w.memory| > 0 && i < |w.received|
  {
    if InPlace(w, i)
    then Mapped(Range(Start(w, i), Start(w, i + 1)), Slot(Start(w, i), |w.memory|), |w.received[i]|)
    else Owned(w.received[i])
  }

  ghost function Handles(w: World): (r: map<nat, Storage>)
    requires |w.memory| > 0
  {
    map i | i in w.live && i < |w.received| :: HandleAt(w, i)
  }

  lemma OneHandle(w: World, i: nat, s: Storage)
    requires |w.memory| > 0
    ensures Fits(w, i, s) <==> i < |w.received| && s == HandleAt(w, i)
  {
    hide Start, Slot;
  }

  lemma HandlesAll(w: World, live: set<Range>, held: map<nat, Storage>)
    requires WorldOk(w) && Mirrors(w, live, held)
    ensures held == Handles(w)
  {
    forall i | i in held
      ensures i < |w.received| && held[i] == HandleAt(w, i)
    {
      OneHandle(w, i, held[i]);
    }
  }

  /** What a read up to a head tells. */
  ghost function ReadOf(w: World, limit: nat): Read<Storage>
    requires |w.memory| > 0
  {
    if limit < ReadPos(w) then Failed(HeadRegressed)
    else
      var framing := Split(UnreadIn(w, limit), |w.memory|);
      var r := StepWorld(w, ReadTo(limit));
      if framing.records != [] then Record(HandleAt(r, |w.received|))
      else if framing.error == None then AtEnd else Failed(framing.error.value)
  }

  lemma ReadHandles(w: World, limit: nat, bytes: seq<Byte>, live: set<Range>, s: Storage)
    requires WorldOk(w) && ReadPos(w) <= limit <= Head(w)
    requires |bytes| <= |UnreadIn(w, limit)| && bytes == UnreadIn(w, limit)[..|bytes|] && IsRecord(bytes, |w.memory|)
    requires var r := StepWorld(w, ReadTo(limit)); WorldOk(r) && Mirrors(r, live, Handles(w)[|w.received| := s])
    ensures var r := StepWorld(w, ReadTo(limit));
      Handles(w)[|w.received| := s] == Handles(r) && ReadOf(w, limit) == Record(s)
  {
    assert |w.memory| > 0;
    hide IsRecord, Join, Start, InPlace, WorldOk, Mirrors, HandleAt, Slot;
    ReadWorld(w, limit, bytes);
    SplitFirst(UnreadIn(w, limit), |bytes|, |w.memory|);
    var r := StepWorld(w, ReadTo(limit));
    HandlesAll(r, live, Handles(w)[|w.received| := s]);
    assert |w.received| in Handles(r) && Handles(r)[|w.received|] == s;
  }

  lemma NothingTaken(w: World, limit: nat, r: Read<Storage>)
    requires |w.memory| > 0 && limit <= Head(w) && !r.Record?
    requires r == Failed(HeadRegressed) <==> limit < ReadPos(w)
    requires ReadPos(w) <= limit ==>
      Split(UnreadIn(w, limit), |w.memory|) == Framing([], if r.AtEnd? then None else Some(r.error))
    ensures ReadOf(w, limit) == r && StepWorld(w, ReadTo(limit)) == w
  {
    hide Start;
    NothingRead(w, limit);
  }

  lemma ReleaseHandles(w: World, live: set<Range>, i: nat)
    requires WorldOk(w) && Mirrors(w, live, Handles(w)) && i in w.live
    ensures var r := w.(live := w.live - {i}); var s := HandleAt(w, i);
      WorldOk(r) && Mirrors(r, live - (if s.Mapped? then {s.range} else {}), Handles(r))
  {
    hide IsRecord, Join, InPlace, Mirrors, Slot;
    ReleaseMirrors(w, live, Handles(w), i);
    var r, s := w.(live := w.live - {i}), HandleAt(w, i);
    hide HandleAt;
    HandlesAll(r, live - (if s.Mapped? then {s.range} else {}), Handles(w) - {i});
  }

  lemma StartNext(w: World, i: nat)
    requires i < |w.received|
    ensures Start(w, i + 1) == Start(w, i) + |w.received[i]|
  {
    assert w.received[..i + 1] == w.received[..i] + [w.received[i]];
    JoinAppend(w.received[..i], w.received[i]);
  }

  lemma {:induction false} StartsGrow(w: World, i: nat, j: nat)
    requires WorldOk(w) && i <= j <= |w.received|
    ensures Start(w, i) <= Start(w, j) && (i < j ==> Start(w, i) < Start(w, j))
    decreases j
  {
    if i < j {
      StartsGrow(w, i, j - 1);
      StartNext(w, j - 1);
      assert IsRecord(w.received[j - 1], |w.memory|);
    }
  }

  lemma {:induction false} TailIsFirst(w: World, i: nat) returns (k: nat)
    requires WorldOk(w) && i <= |w.received|
    ensures i <= k <= |w.received| && TailFrom(w, i) == Start(w, k)
    ensures k < |w.received| ==> k in w.live && InPlace(w, k)
    ensures forall j :: i <= j < k ==> !(j in w.live && InPlace(w, j))
    decreases |w.received| - i
  {
    if i == |w.received| || (i in w.live && InPlace(w, i)) {
      k := i;
    } else {
      k := TailIsFirst(w, i + 1);
    }
  }

  ghost predicate Mirrors(w: World, live: set<Range>, held: map<nat, Storage>)
    requires |w.memory| > 0
  {
    && held.Keys == w.live
    && (forall i :: i in held ==> Fits(w, i, held[i]))
    && (forall i :: i in held && held[i].Mapped? ==> held[i].range in live)
    && (forall r :: r in live ==> exists i :: i in held && held[i].Mapped? && held[i].range == r)
  }

  /** The first position that is not released is the start of the first record in use in place. */
  lemma FirstIncomplete(w: World, done: set<nat>, live: set<Range>, held: map<nat, Storage>, tail: nat, pending: map<nat, nat>)
    requires WorldOk(w) && Mirrors(w, live, held)
    requires Represents(w.base, done, tail, pending) && Accounted(w.base, ReadPos(w), done, live)
    ensures tail == TailOf(w)
  {
    var k := TailIsFirst(w, 0);
    var t := TailOf(w);
    forall p | w.base <= p < t
      ensures p in done
    {
      StartsGrow(w, k, |w.received|);
      assert p < ReadPos(w);
      if p !in done {
        assert InLive(live, p);
        var r :| r in live && r.from <= p < r.limit;
        var i :| i in held && held[i].Mapped? && held[i].range == r;
        assert Fits(w, i, held[i]) && k <= i;
        StartsGrow(w, k, i);
      }
    }
    if k < |w.received| {
      assert Fits(w, k, held[k]);
      StartsGrow(w, k, k + 1);
      assert t in Span(held[k].range.from, held[k].range.limit);
    }
    assert t !in done;
  }

  /** A well-framed prefix of a stream is its first record. */
  lemma SplitFirst(stream: seq<Byte>, n: nat, capacity: nat)
    requires n <= |stream| && IsRecord(stream[..n], capacity)
    ensures Split(stream, capacity) == Framing([stream[..n]] + Split(stream[n..], capacity).records, Split(stream[n..], capacity).error)
  {
  }

  lemma NothingFramed(stream: seq<Byte>, capacity: nat)
    requires Split(stream, capacity) == Framing([], None)
    ensures stream == []
  {
  }

  lemma {:induction false} SplitPrefix(records: seq<seq<Byte>>, stream: seq<Byte>, capacity: nat)
    requires (forall i :: 0 <= i < |records| ==> IsRecord(records[i], capacity)) && Join(records) <= stream
    ensures records <= Split(stream, capacity).records
  {
    if records != [] {
      var n := |records[0]|;
      assert stream[..n] == records[0] by { assert Join(records)[..n] == records[0]; }
      assert IsRecord(stream[..n], capacity);
      SplitFirst(stream, n, capacity);
      assert Join(records[1..]) <= stream[n..] by { assert Join(records)[n..] == Join(records[1..]); }
      SplitPrefix(records[1..], stream[n..], capacity);
      assert Split(stream, capacity).records == [stream[..n]] + Split(stream[n..], capacity).records;
    }
  }

  lemma ReadWorld(w: World, limit: nat, bytes: seq<Byte>)
    requires |w.memory| > 0 && ReadPos(w) <= limit <= Head(w)
    requires |bytes| <= |UnreadIn(w, limit)| && bytes == UnreadIn(w, limit)[..|bytes|] && IsRecord(bytes, |w.memory|)
    ensures StepWorld(w, ReadTo(limit)) == w.(received := w.received + [bytes], live := w.live + {|w.received|})
    ensures w.published[..ReadPos(w) - w.base + |bytes|] == w.published[..ReadPos(w) - w.base] + bytes
  {
    hide Start;
    SplitFirst(UnreadIn(w, limit), |bytes|, |w.memory|);
    LongerPrefix(w.published, ReadPos(w) - w.base, limit - w.base, |bytes|);
  }

  lemma FirstFramed(stream: seq<Byte>, capacity: nat)
    requires Split(stream, capacity).records != []
    ensures var first := Split(stream, capacity).records[0];
      |first| <= |stream| && first == stream[..|first|] && IsRecord(first, capacity)
  {
  }

  /** Every step keeps what is received a framed prefix of what is published. */
  lemma WorldStaysOk(w: World, step: Step)
    requires WorldOk(w)
    ensures WorldOk(StepWorld(w, step))
  {
    hide TailOf, Slot, SlotBytes;
    if step.ReadTo? && Split(UnreadIn(w, step.limit), |w.memory|).records != [] {
      var unread := UnreadIn(w, step.limit);
      FirstFramed(unread, |w.memory|);
      var bytes := Split(unread, |w.memory|).records[0];
      hide Split, IsRecord, Join;
      ReadWorld(w, step.limit, bytes);
      JoinAppend(w.received, bytes);
      assert w.received[..|w.received|] == w.received;
    } else {
      hide Split, IsRecord, Join;
    }
  }

  lemma StartStays(w: World, r: World, bytes: seq<Byte>, i: nat)
    requires r.base == w.base && r.received == w.received + [bytes] && i <= |w.received|
    ensures Start(r, i) == Start(w, i)
  {
    assert r.received[..i] == w.received[..i];
  }

  /** The world `r` after a read that handed out `bytes` as `s`. */
  lemma ReadExtends(w: World, r: World, s: Storage, bytes: seq<Byte>)
    requires WorldOk(w) && r == w.(received := w.received + [bytes], live := w.live + {|w.received|})
    requires ReadPos(w) + |bytes| <= Head(w) && IsRecord(bytes, |w.memory|)
    requires w.published[..ReadPos(w) - w.base + |bytes|] == w.published[..ReadPos(w) - w.base] + bytes
    requires s.Mapped? <==> Slot(ReadPos(w), |w.memory|) + |bytes| <= |w.memory|
    requires s.Mapped? ==> s == Mapped(Range(ReadPos(w), ReadPos(w) + |bytes|), Slot(ReadPos(w), |w.memory|), |bytes|)
    requires s.Owned? ==> s.bytes == bytes
    ensures WorldOk(r) && ReadPos(r) == ReadPos(w) + |bytes| && Fits(r, |w.received|, s)
    ensures forall i: nat, t {:trigger Fits(w, i, t)} {:trigger Fits(r, i, t)} :: Fits(w, i, t) ==> Fits(r, i, t)
  {
    hide IsRecord, Join;
    JoinAppend(w.received, bytes);
    assert w.received[..|w.received|] == w.received && r.received[..|r.received|] == r.received;
    StartStays(w, r, bytes, |w.received|);
    StartNext(r, |w.received|);
    hide Start;
    forall i: nat, t | Fits(w, i, t)
      ensures Fits(r, i, t)
    {
      StartStays(w, r, bytes, i);
      StartStays(w, r, bytes, i + 1);
    }
  }

  lemma ReadMirrors(w: World, r: World, live: set<Range>, held: map<nat, Storage>, s: Storage)
    requires |w.memory| > 0 && |r.memory| == |w.memory| && r.live == w.live + {|w.received|}
    requires WorldOk(w) && Mirrors(w, live, held) && Fits(r, |w.received|, s)
    requires forall i: nat, t {:trigger Fits(w, i, t)} {:trigger Fits(r, i, t)} :: Fits(w, i, t) ==> Fits(r, i, t)
    ensures Mirrors(r, live + (if s.Mapped? then {s.range} else {}), held[|w.received| := s])
  {
    hide Fits, IsRecord, Join;
    var more, all := held[|w.received| := s], live + (if s.Mapped? then {s.range} else {});
    forall x | x in all
      ensures exists i :: i in more && more[i].Mapped? && more[i].range == x
    {
      if x in live {
        var i :| i in held && held[i].Mapped? && held[i].range == x;
        assert more[i] == held[i];
      } else {
        assert more[|w.received|] == s;
      }
    }
  }

  lemma FitsSame(w: World, r: World, i: nat, s: Storage)
    requires 0 < |w.memory| == |r.memory| && r.base == w.base && r.received == w.received
    ensures Fits(w, i, s) == Fits(r, i, s)
  {
    hide Join;
  }

  lemma MirrorsSame(w: World, r: World, live: set<Range>, held: map<nat, Storage>)
    requires 0 < |w.memory| == |r.memory| && r.base == w.base && r.received == w.received && r.live == w.live
    requires Mirrors(w, live, held)
    ensures Mirrors(r, live, held)
  {
    hide Fits;
    forall i | i in held
      ensures Fits(r, i, held[i])
    {
      FitsSame(w, r, i, held[i]);
    }
  }

  lemma HeldFits(w: World, live: set<Range>, held: map<nat, Storage>, i: nat)
    requires |w.memory| > 0 && Mirrors(w, live, held) && i in held
    ensures Fits(w, i, held[i]) && (held[i].Mapped? ==> held[i].range in live)
  {
  }

  lemma NotHeld(w: World, live: set<Range>, held: map<nat, Storage>, i: nat)
    requires |w.memory| > 0 && Mirrors(w, live, held) && i !in held
    ensures held - {i} == held && w.live - {i} == w.live
  {
  }

  lemma ReleaseMirrors(w: World, live: set<Range>, held: map<nat, Storage>, i: nat)
    requires WorldOk(w) && Mirrors(w, live, held) && i in held
    ensures Mirrors(w.(live := w.live - {i}), live - (if held[i].Mapped? then {held[i].range} else {}), held - {i})
  {
    hide IsRecord, Fits, Join;
    OthersStay(w, held, i);
    forall j | j in held
      ensures Fits(w.(live := w.live - {i}), j, held[j])
    {
      FitsSame(w, w.(live := w.live - {i}), j, held[j]);
    }
    var fewer, left := held - {i}, live - (if held[i].Mapped? then {held[i].range} else {});
    forall x | x in left
      ensures exists j :: j in fewer && fewer[j].Mapped? && fewer[j].range == x
    {
      var j :| j in held && held[j].Mapped? && held[j].range == x;
      assert j in fewer;
    }
  }

  lemma NothingRead(w: World, limit: nat)
    requires |w.memory| > 0
    requires ReadPos(w) <= limit <= Head(w) ==> Split(UnreadIn(w, limit), |w.memory|).records == []
    ensures StepWorld(w, ReadTo(limit)) == w
  {
    hide Start;
  }

  lemma OthersStay(w: World, held: map<nat, Storage>, i: nat)
    requires WorldOk(w) && i in held && forall j :: j in held ==> Fits(w, j, held[j])
    ensures forall j :: j in held && j != i && held[i].Mapped? && held[j].Mapped? ==> held[j].range != held[i].range
  {
    forall j | j in held && j != i && held[i].Mapped? && held[j].Mapped?
      ensures held[j].range != held[i].range
    {
      if i < j { StartsGrow(w, i, j); } else { StartsGrow(w, j, i); }
    }
  }

  /** Any interleaving of kernel writes, publications, reads, drops and detaches does
      exactly what the flat protocol does: the same records are received, the same
      handles are in use, each shows the bytes it was read with, and after every step
      the positions are those of the flat protocol. The received records are the first
      of the published stream's records. */
  method Interleave(exponent: nat, committed: nat, schedule: seq<Step>)
      returns (received: seq<seq<Byte>>, shown: map<nat, seq<Byte>>, trace: seq<Positions>)
    requires committed < U64_LIMIT
    ensures var end := RunWorld(StartWorld(exponent, committed), schedule);
      && received == end.received && received <= Split(end.published, Pow2(exponent)).records
      && shown.Keys == end.live && forall i :: i in shown ==> i < |received| && shown[i] == received[i]
    ensures |trace| == |schedule|
    ensures forall k :: 0 <= k < |trace| ==> trace[k] == PositionsOf(RunWorld(StartWorld(exponent, committed), schedule[..k + 1]))
    ensures forall p :: p in trace ==> p.tail <= p.readPos <= p.head <= p.tail + Pow2(exponent)
  {
    hide StepWorld, Split, Join, Pow2, TailOf, Represents, Accounted, Intact;
    var ring := new RingBuffer(exponent, committed);
    var held: map<nat, Storage> := map[];
    received, trace := [], [];
    ghost var start := StartWorld(exponent, committed);
    ghost var w := start;
    StartRefines(ring, start);
    for k := 0 to |schedule|
      invariant fresh(ring) && fresh(ring.data) && fresh(ring.commits) && ring.exponent == exponent
      invariant w == RunWorld(start, schedule[..k]) && ring.Refines(w, held) && received == w.received
      invariant |trace| == k
      invariant forall i :: 0 <= i < k ==> trace[i] == PositionsOf(RunWorld(start, schedule[..i + 1]))
      invariant forall p :: p in trace ==> p.tail <= p.readPos <= p.head <= p.tail + Pow2(exponent)
    {
      assert schedule[..k + 1][..k] == schedule[..k];
      var held', got := ring.Act(schedule[k], w, held, |received|);
      held, received := held', received + got;
      w := StepWorld(w, schedule[k]);
      ring.TailMatches(w, held);
      trace := trace + [Positions(ring.tail, ring.readPos, ring.head)];
    }
    assert schedule[..|schedule|] == schedule;
    SplitPrefix(received, w.published, Pow2(exponent));
    shown := ShowAll(ring, w, held);
  }

  lemma StartRefines(ring: RingBuffer, w: World)
    requires ring.Valid() && w == StartWorld(ring.exponent, ring.commits.base)
    requires ring.published == [] && ring.live == {} && ring.readPos == ring.commits.base && ring.data[..] == w.memory
    ensures ring.Refines(w, map[])
  {
    assert Join([]) == [];
  }

  /** Read every handle in use. */
  method ShowAll(ring: RingBuffer, ghost w: World, held: map<nat, Storage>) returns (shown: map<nat, seq<Byte>>)
    requires ring.Refines(w, held)
    ensures shown.Keys == w.live && forall i :: i in shown ==> i < |w.received| && shown[i] == w.received[i]
  {
    hide Join, IsRecord, Represents, Accounted, Intact;
    forall i | i in held
      ensures ring.Holds(held[i]) && ring.Origin(held[i]) == w.received[i]
    {
      ring.HandleFits(w, i, held[i]);
      ShowsReceived(w, i);
    }
    shown := map i | i in held :: ring.AsBytes(held[i]);
  }

  /** A received record lies in the stream where it starts. */
  lemma ShowsReceived(w: World, i: nat)
    requires WorldOk(w) && i < |w.received|
    ensures w.base <= Start(w, i) <= Start(w, i + 1) <= Head(w)
    ensures w.published[Start(w, i) - w.base..Start(w, i + 1) - w.base] == w.received[i]
  {
    var before, after := w.received[..i], w.received[i + 1..];
    StartNext(w, i);
    assert w.received == before + [w.received[i]] + after;
    JoinAppend(before, w.received[i]);
    JoinConcat(before + [w.received[i]], after);
    assert w.received[..i + 1] == before + [w.received[i]];
    assert w.published[..|Join(w.received)|] == Join(w.received);
  }

  lemma {:induction false} JoinConcat(a: seq<seq<Byte>>, b: seq<seq<Byte>>)
    ensures Join(a + b) == Join(a) + Join(b)
    decreases |b|
  {
    if b == [] {
      assert a + b == a;
    } else {
      JoinAppend(a, b[0]);
      assert a + b == a + [b[0]] + b[1..];
      JoinConcat(a + [b[0]], b[1..]);
      assert Join(a) + b[0] + Join(b[1..]) == Join(a) + (b[0] + Join(b[1..]));
    }
  }

  lemma {:induction false} JoinAppend(records: seq<seq<Byte>>, r: seq<Byte>)
    ensures Join(records + [r]) == Join(records) + r
  {
    if records == [] {
      assert Join([r]) == r + Join([]);
    } else {
      JoinAppend(records[1..], r);
      assert (records + [r])[1..] == records[1..] + [r];
      assert records[0] + (Join(records[1..]) + r) == records[0] + Join(records[1..]) + r;
    }
  }

  /** What is left of a record after detaching `len` bytes of it. */
  function Detached(s: Storage, bytes: seq<Byte>, len: nat): (r: seq<Byte>) {
    if s.Mapped? && len < |bytes| then bytes[..len] else bytes
  }

  lemma SliceOfSlice<T>(s: seq<T>, from: nat, limit: nat, n: nat)
    requires from + n <= limit <= |s|
    ensures s[from..limit][..n] == s[from..from + n]
    ensures s[from..limit][n..] == s[from + n..limit]
  {
  }

  lemma LongerPrefix<T>(s: seq<T>, from: nat, limit: nat, n: nat)
    requires from + n <= limit <= |s|
    ensures s[..from + n] == s[..from] + s[from..limit][..n]
  {
  }

  ghost function RangesOf(records: seq<Storage>): set<Range> {
    if records == [] then {}
    else (if records[0].Mapped? then {records[0].range} else {}) + RangesOf(records[1..])
  }

  ghost predicate Disjoint(records: seq<Storage>) {
    forall i, j :: 0 <= i < j < |records| && records[i].Mapped? && records[j].Mapped? ==> records[i].range != records[j].range
  }

  lemma {:induction false} RangesOfAppend(records: seq<Storage>, s: Storage)
    ensures RangesOf(records + [s]) == RangesOf(records) + (if s.Mapped? then {s.range} else {})
  {
    if records == [] {
      assert (records + [s])[1..] == [];
    } else {
      RangesOfAppend(records[1..], s);
      assert (records + [s])[1..] == records[1..] + [s];
    }
  }

  lemma {:induction false} InRangesOf(records: seq<Storage>, r: Range)
    ensures r in RangesOf(records) <==> exists i :: 0 <= i < |records| && records[i] .Mapped? && records[i].range == r
  {
    if records != [] {
      InRangesOf(records[1..], r);
      if r in RangesOf(records[1..]) {
        var i :| 0 <= i < |records[1..]| && records[1..][i].Mapped? && records[1..][i].range == r;
        assert records[i + 1] == records[1..][i];
      }
      forall i | 0 < i < |records| && records[i].Mapped? && records[i].range == r
        ensures r in RangesOf(records[1..])
      {
        assert records[i] == records[1..][i - 1];
      }
    }
  }

  lemma DisjointTail(records: seq<Storage>)
    requires records != [] && Disjoint(records)
    ensures RangesOf(records[1..]) == RangesOf(records) - (if records[0].Mapped? then {records[0].range} else {})
    ensures forall s :: s in records[1..] && s.Mapped? ==> s.range in RangesOf(records[1..])
  {
    if records[0].Mapped? {
      InRangesOf(records[1..], records[0].range);
    }
    forall s | s in records[1..] && s.Mapped?
      ensures s.range in RangesOf(records[1..])
    {
      InRangesOf(records[1..], s.range);
    }
  }
}
