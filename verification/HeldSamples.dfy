/** Samples that wait in the sorter while their bytes still lie in the rings: what keeps
    ring space in use, what detaching them gives back, and what is read from them in the
    end, compared with the flat queue. */
module HeldSamples {
  import opened Bits
  import opened Ring
  import opened Sorter
  import opened FlatQueue
  import S = SampleRecord
  import Recorder

  /** A queued event: a sample still in its ring record, a sample with its own copy, or an
      event that keeps nothing of the ring. */
  datatype Held =
    | InRing(ring: nat, storage: Storage, layout: S.Layout)
    | Copied(bytes: seq<Byte>, layout: S.Layout)
    | Other

  /** The same event: a sample may have moved out of its ring, and nothing else. */
  predicate SameSample(a: Held, b: Held) {
    a == b || (a.InRing? && b.Copied? && a.layout == b.layout)
  }

  /** A queued value is its item: in the ring under the record's own handle, or a copy that
      shows the same. */
  ghost predicate Matches(worlds: seq<World>, item: Item, h: Held, format: S.Format) {
    match item
    case Plain => h == Other
    case Sample(r, attached) =>
      && Known(worlds, r)
      && var sample := S.Decode(RecordOf(worlds, r), BaseOf(HandleOf(worlds, r)), format);
         && sample.Some?
         && if attached then h == InRing(r.ring, HandleOf(worlds, r), sample.value.layout)
            else h.Copied? && h.layout == sample.value.layout && S.ViewOf(h.layout, h.bytes, 0) == ViewAt(worlds, r, format)
  }

  ghost predicate Matched(worlds: seq<World>, items: map<Entry, Item>, heap: map<Entry, Held>, format: S.Format) {
    heap.Keys == items.Keys && forall x :: x in items ==> Matches(worlds, items[x], heap[x], format)
  }

  lemma MatchesLater(worlds: seq<World>, later: seq<World>, item: Item, h: Held, format: S.Format)
    requires AllGrow(worlds, later) && Matches(worlds, item, h, format)
    ensures Matches(later, item, h, format)
  {
    hide S.Decode, S.ViewOf, HandleOf, RecordOf, AllGrow;
    if item.Sample? {
      RefStays(worlds, later, item.ref);
    }
  }

  lemma MatchedLater(worlds: seq<World>, later: seq<World>, items: map<Entry, Item>, heap: map<Entry, Held>, format: S.Format)
    requires AllGrow(worlds, later) && Matched(worlds, items, heap, format)
    ensures Matched(later, items, heap, format)
  {
    hide Matches, AllGrow;
    forall x | x in items
      ensures Matches(later, items[x], heap[x], format)
    {
      MatchesLater(worlds, later, items[x], heap[x], format);
    }
  }

  lemma KeptMatches(worlds: seq<World>, r: Ref, format: S.Format, sample: S.Sample)
    requires Known(worlds, r) && S.Decode(RecordOf(worlds, r), BaseOf(HandleOf(worlds, r)), format) == Some(sample)
    ensures Matches(worlds, Sample(r, true), InRing(r.ring, HandleOf(worlds, r), sample.layout), format)
  {
  }

  lemma PlainMatches(worlds: seq<World>, format: S.Format)
    ensures Matches(worlds, Plain, Other, format)
  {
  }

  lemma CopyMatches(worlds: seq<World>, r: Ref, format: S.Format, bytes: seq<Byte>)
    requires Known(worlds, r)
    requires var sample := S.Decode(RecordOf(worlds, r), BaseOf(HandleOf(worlds, r)), format);
      sample.Some? && bytes == Detached(HandleOf(worlds, r), RecordOf(worlds, r), S.LayoutEnd(sample.value.layout))
    ensures var sample := S.Decode(RecordOf(worlds, r), BaseOf(HandleOf(worlds, r)), format);
      Matches(worlds, Sample(r, false), Copied(bytes, sample.value.layout), format)
  {
    hide S.Decode, S.ViewOf, HandleAt, Detached, S.LayoutEnd;
    S.DetachKeepsView(HandleOf(worlds, r), RecordOf(worlds, r), BaseOf(HandleOf(worlds, r)), format, 0);
  }

  lemma MatchedPush(worlds: seq<World>, items: map<Entry, Item>, heap: map<Entry, Held>, format: S.Format, x: Entry, item: Item, h: Held)
    requires Matched(worlds, items, heap, format) && Matches(worlds, item, h, format) && x !in items
    ensures Matched(worlds, items[x := item], heap[x := h], format)
  {
    hide Matches;
  }

  lemma MatchedReplace(worlds: seq<World>, items: map<Entry, Item>, heap: map<Entry, Held>, format: S.Format, x: Entry, item: Item, h: Held)
    requires Matched(worlds, items, heap, format) && x in items && Matches(worlds, item, h, format)
    ensures Matched(worlds, items[x := item], heap[x := h], format)
  {
    hide Matches;
    assert heap[x := h].Keys == heap.Keys && items[x := item].Keys == items.Keys;
  }

  lemma MatchedWithout(worlds: seq<World>, items: map<Entry, Item>, heap: map<Entry, Held>, format: S.Format, x: Entry)
    requires Matched(worlds, items, heap, format) && x in items
    ensures x in heap && Matches(worlds, items[x], heap[x], format) && Matched(worlds, items - {x}, heap - {x}, format)
  {
    hide Matches;
    assert (heap - {x}).Keys == heap.Keys - {x} && (items - {x}).Keys == items.Keys - {x};
  }

  lemma SameHeap(f: Flat, heap: map<Entry, Held>, format: S.Format)
    requires FlatOk(f) && Matched(f.worlds, f.items, heap, format)
    ensures heap.Keys == f.s.heap && (heap == map[] <==> f.s.heap == {})
  {
    hide Matches;
  }

  class SampleQueue {
    const rings: seq<RingBuffer>
    const format: S.Format
    const sorter: EventSorter<Held>
    ghost var flat: Flat

    /** No two rings share memory or bookkeeping. */
    ghost predicate Apart() {
      forall i, j :: 0 <= i < |rings| && 0 <= j < |rings| && i != j ==>
        rings[i] != rings[j] && rings[i].data != rings[j].data && rings[i].commits != rings[j].commits
    }

    ghost function Footprint(): set<object> {
      RingObjects() + (set g | 0 <= g < |rings| :: rings[g].data)
    }

    ghost function RingObjects(): set<object> {
      (set g | 0 <= g < |rings| :: rings[g]) + (set g | 0 <= g < |rings| :: rings[g].commits)
    }

    /** Every ring does what its flat ring does. */
    ghost predicate AllTrack(worlds: seq<World>)
      reads Footprint()
    {
      |worlds| == |rings| && forall g :: 0 <= g < |rings| ==> rings[g].Tracks(worlds[g])
    }

    ghost predicate Valid()
      reads this, sorter, Footprint()
    {
      && Apart() && sorter.Valid() && sorter.Abs() == flat.s && FlatOk(flat)
      && AllTrack(flat.worlds) && Matched(flat.worlds, flat.items, sorter.heap, format)
    }

    constructor (rings: seq<RingBuffer>, format: S.Format, ghost worlds: seq<World>)
      requires forall i, j :: 0 <= i < |rings| && 0 <= j < |rings| && i != j ==>
        rings[i] != rings[j] && rings[i].data != rings[j].data && rings[i].commits != rings[j].commits
      requires |worlds| == |rings| && forall g :: 0 <= g < |rings| ==> rings[g].Tracks(worlds[g]) && worlds[g].live == {}
      ensures Valid() && fresh(sorter) && flat == Flat(worlds, EMPTY, map[], None, [], [])
      ensures this.rings == rings && this.format == format
    {
      this.rings, this.format := rings, format;
      sorter := new EventSorter<Held>();
      flat := Flat(worlds, EMPTY, map[], None, [], []);
    }

    /** The kernel writes into a ring or publishes; no queued sample changes. */
    method KernelStep(k: nat, step: Step)
      requires Valid() && k < |rings| && (step.Write? || step.Publish?)
      modifies this`flat, rings[k], rings[k].data
      ensures Valid() && flat == Stepped(old(flat), k, step) && sorter.heap == old(sorter.heap)
    {
      hide FlatOk, Matched, RingBuffer.Refines, EventSorter.Valid, StepWorld, Handles, SampleQueue.Footprint;
      ghost var w := flat.worlds[k];
      FlatIsReal(flat);
      assert rings[k].Tracks(w);
      KernelOk(flat, k, step);
      SteppedGrows(flat, k, step);
      MatchedLater(flat.worlds, Stepped(flat, k, step).worlds, flat.items, sorter.heap, format);
      KernelHandles(w, step);
      if step.Write? {
        rings[k].WriteStep(step.position, step.b, w, Handles(w));
      } else {
        rings[k].PublishStep(step.n, w, Handles(w));
      }
      flat := Stepped(flat, k, step);
    }

    // --------------------------------------------------- one record in hand

    /** Read the next record of a ring. */
    method TakeRecord(k: nat, limit: nat) returns (r: Read<Storage>)
      requires Valid() && flat.hand == None && k < |rings| && limit <= rings[k].head
      modifies this`flat, rings[k], rings[k].commits
      ensures Valid() && flat == Took(old(flat), k, limit) && sorter.heap == old(sorter.heap)
      ensures |old(flat).worlds| == |rings| && Real(old(flat).worlds) && r == ReadOf(old(flat).worlds[k], limit)
    {
      hide FlatOk, Matched, RingBuffer.Tracks, EventSorter.Valid, StepWorld, ReadOf, SampleQueue.Footprint;
      FlatIsReal(flat);
      TookOk(flat, k, limit);
      SteppedGrows(flat, k, ReadTo(limit));
      MatchedLater(flat.worlds, Took(flat, k, limit).worlds, flat.items, sorter.heap, format);
      r := rings[k].TakeNext(limit, flat.worlds[k]);
      flat := Took(flat, k, limit);
    }

    /** Give the space of the record in hand back. */
    method GiveBack(k: nat, s: Storage)
      requires Valid() && flat.hand.Some? && flat.hand.value.ring == k && Known(flat.worlds, flat.hand.value)
      requires k < |rings| && s == HandleOf(flat.worlds, flat.hand.value)
      modifies this`flat, rings[k], rings[k].commits
      ensures Valid() && flat == Gave(old(flat)) && sorter.heap == old(sorter.heap)
    {
      hide Matched, RingBuffer.Tracks, EventSorter.Valid, StepWorld, HandleAt, SampleQueue.Footprint;
      ghost var r := flat.hand.value;
      GaveOk(flat);
      SteppedGrows(flat, k, Release(r.index));
      MatchedLater(flat.worlds, Gave(flat).worlds, flat.items, sorter.heap, format);
      assert r.index in flat.worlds[k].live;
      hide FlatOk;
      rings[k].Free(s, flat.worlds[k], r.index);
      flat := Gave(flat);
    }

    lemma RingTracks(k: nat)
      requires Valid() && k < |rings|
      ensures k < |flat.worlds| && rings[k].Tracks(flat.worlds[k])
    {
      hide Matched, EventSorter.Valid, RingBuffer.Tracks, FlatOk;
    }

    lemma NotInRings()
      ensures sorter as object !in Footprint() && this as object !in Footprint()
    {
    }

    /** Queue the sample in hand; it keeps its record. */
    method KeepSample(k: nat, s: Storage, sample: S.Sample)
      requires Valid() && flat.hand.Some? && flat.hand.value.ring == k && Known(flat.worlds, flat.hand.value)
      requires s == HandleOf(flat.worlds, flat.hand.value)
      requires S.Decode(RecordOf(flat.worlds, flat.hand.value), BaseOf(s), format) == Some(sample)
      requires sorter.currentGroup.Some? && sorter.nextSequence < U64_LIMIT - 1
      modifies this`flat, sorter
      ensures Valid() && flat == Kept(old(flat), sample.time)
      ensures sorter.heap == old(sorter.heap)[NewEntry(old(flat).s, sample.time) := InRing(k, s, sample.layout)]
    {
      hide FlatOk, Matched, Matches, RingBuffer.Tracks, SampleQueue.Footprint, SampleQueue.Apart, EventSorter.Valid, S.Decode, S.ViewOf, HandleAt;
      NotInRings();
      KeptMatches(flat.worlds, flat.hand.value, format, sample);
      ghost var item, h := Sample(flat.hand.value, true), InRing(k, s, sample.layout);
      QueuedOk(flat, sample.time, item);
      MatchedPush(flat.worlds, flat.items, sorter.heap, format, NewEntry(flat.s, sample.time), item, h);
      sorter.PushCurrentGroup(sample.time, InRing(k, s, sample.layout));
      flat := Kept(flat, sample.time);
    }

    /** Queue an event that keeps nothing of a ring. */
    method KeepOther(timestamp: nat)
      requires Valid() && flat.hand == None
      requires sorter.currentGroup.Some? && sorter.nextSequence < U64_LIMIT - 1
      modifies this`flat, sorter
      ensures Valid() && flat == Queued(old(flat), timestamp, Plain)
      ensures sorter.heap == old(sorter.heap)[NewEntry(old(flat).s, timestamp) := Other]
    {
      hide FlatOk, Matched, Matches, RingBuffer.Tracks, SampleQueue.Footprint, SampleQueue.Apart, EventSorter.Valid, S.Decode, S.ViewOf, HandleAt;
      NotInRings();
      PlainMatches(flat.worlds, format);
      QueuedOk(flat, timestamp, Plain);
      MatchedPush(flat.worlds, flat.items, sorter.heap, format, NewEntry(flat.s, timestamp), Plain, Other);
      sorter.PushCurrentGroup(timestamp, Other);
      flat := Queued(flat, timestamp, Plain);
    }

    /** Handle the record in hand. A sample waits in the sorter and keeps its record's space,
        unless it is skipped; every other record gives its space back at once. */
    method HandleRecord(k: nat, s: Storage, other: Option<nat>) returns (r: Event)
      requires Valid() && flat.hand.Some? && flat.hand.value.ring == k && Known(flat.worlds, flat.hand.value)
      requires k < |rings| && s == HandleOf(flat.worlds, flat.hand.value)
      requires sorter.currentGroup.Some? && sorter.nextSequence < U64_LIMIT - 1
      modifies this`flat, sorter, rings[k], rings[k].commits
      ensures var fate := FateAt(old(flat).worlds, old(flat).hand.value, format, other);
        && Real(old(flat).worlds) && old(flat).s.current.Some?
        && Valid() && flat == Handled(old(flat), fate) && r == EventOf(fate)
    {
      hide SampleQueue.Valid, FlatOk, HandleAt, S.IsSampleHeader, Handled, FateAt, EventOf, Real, RingBuffer.Tracks, RingBuffer.Valid, RingBuffer.Holds, RingBuffer.Origin;
      SameSorter();
      HandIsLive(flat);
      RingTracks(k);
      rings[k].HandleShows(flat.worlds[k], flat.hand.value.index);
      var bytes := rings[k].AsBytes(s);
      if S.IsSampleHeader(bytes) && BaseOf(s) % 8 == 0 {
        r := HandleSample(k, s, bytes, other);
      } else {
        r := HandleOther(k, s, bytes, other);
      }
    }

    method HandleSample(k: nat, s: Storage, bytes: seq<Byte>, ghost other: Option<nat>) returns (r: Event)
      requires Valid() && flat.hand.Some? && flat.hand.value.ring == k && Known(flat.worlds, flat.hand.value)
      requires k < |rings| && s == HandleOf(flat.worlds, flat.hand.value)
      requires bytes == RecordOf(flat.worlds, flat.hand.value) && S.IsSampleHeader(bytes) && BaseOf(s) % 8 == 0
      requires sorter.currentGroup.Some? && sorter.nextSequence < U64_LIMIT - 1
      modifies this`flat, sorter, rings[k], rings[k].commits
      ensures Real(old(flat).worlds) && old(flat).s.current.Some? && Valid()
      ensures var fate := FateAt(old(flat).worlds, old(flat).hand.value, format, other);
        flat == Handled(old(flat), fate) && r == EventOf(fate)
    {
      hide SampleQueue.Valid, SampleQueue.Footprint, S.Decode, S.IsSampleHeader, Recorder.Usable, HandleAt, Gave, Kept, Queued, Real;
      SameSorter();
      var sample := S.Decode(bytes, BaseOf(s), format);
      if sample == None {
        GiveBack(k, s);
        return Rejected;
      }
      if !Recorder.Usable(Some((sample.value.pid, sample.value.tid)), Some(sample.value.time)) {
        GiveBack(k, s);
        return Skipped;
      }
      KeepSample(k, s, sample.value);
      return QueuedAt(sample.value.time);
    }

    method HandleOther(k: nat, s: Storage, ghost bytes: seq<Byte>, other: Option<nat>) returns (r: Event)
      requires Valid() && flat.hand.Some? && flat.hand.value.ring == k && Known(flat.worlds, flat.hand.value)
      requires k < |rings| && s == HandleOf(flat.worlds, flat.hand.value)
      requires bytes == RecordOf(flat.worlds, flat.hand.value) && !(S.IsSampleHeader(bytes) && BaseOf(s) % 8 == 0)
      requires sorter.currentGroup.Some? && sorter.nextSequence < U64_LIMIT - 1
      modifies this`flat, sorter, rings[k], rings[k].commits
      ensures Real(old(flat).worlds) && old(flat).s.current.Some? && Valid()
      ensures var fate := FateAt(old(flat).worlds, old(flat).hand.value, format, other);
        flat == Handled(old(flat), fate) && r == EventOf(fate)
    {
      hide SampleQueue.Valid, SampleQueue.Footprint, S.Decode, S.IsSampleHeader, HandleAt, Gave, Kept, Queued, Real, FlatOk;
      SameSorter();
      GaveKeeps(flat);
      GiveBack(k, s);
      if other == None {
        return Rejected;
      }
      SameSorter();
      KeepOther(other.value);
      return QueuedAt(other.value);
    }

    /** Handle the next record of a ring, up to a head captured before. */
    method ReadEvent(k: nat, limit: nat, other: Option<nat>) returns (r: Event)
      requires Valid() && flat.hand == None && k < |rings| && limit <= rings[k].head
      requires sorter.currentGroup.Some? && sorter.nextSequence < U64_LIMIT - 1
      modifies this`flat, sorter, rings[k], rings[k].commits
      ensures Real(old(flat).worlds) && |old(flat).worlds| == |rings| && old(flat).s.current.Some?
      ensures Valid() && flat == EventRead(old(flat), k, limit, other, format)
      ensures flat.events == old(flat).events + [r]
    {
      FlatIsReal(flat);
      TookIsKnown(flat, k, limit);
      ReadTells(flat, k, limit);
      assert sorter.currentGroup == flat.s.current && sorter.nextSequence == flat.s.next;
      hide SampleQueue.Valid, FateAt, HandleAt, ReadOf, StepWorld, EventOf;
      var record := TakeRecord(k, limit);
      if record.AtEnd? {
        r := Ended;
      } else if record.Failed? {
        r := Rejected;
      } else {
        SameSorter();
        r := HandleRecord(k, record.record, other);
        HandledLogs(Took(old(flat), k, limit), FateAt(Took(old(flat), k, limit).worlds, Took(old(flat), k, limit).hand.value, format, other));
      }
      AddEvent(r);
    }

    lemma SameSorter()
      requires Valid()
      ensures sorter.currentGroup == flat.s.current && sorter.nextSequence == flat.s.next
      ensures FlatOk(flat) && Real(flat.worlds) && |flat.worlds| == |rings|
      ensures sorter.heap.Keys == flat.items.Keys && sorter.Abs() == flat.s
    {
      hide Matches, EventSorter.Valid, RingBuffer.Tracks;
    }

    ghost method AddEvent(r: Event)
      requires Valid()
      modifies this`flat
      ensures Valid() && flat == old(flat).(events := old(flat).events + [r])
    {
      hide RingBuffer.Tracks, EventSorter.Valid, Matched, SampleQueue.Footprint;
      flat := flat.(events := flat.events + [r]);
    }

    // ------------------------------------------------------------- detaching

    /** What a queued event is read as. */
    ghost function ViewNow(h: Held): Option<S.View>
      reads Footprint()
    {
      match h
      case Other => None
      case Copied(bytes, layout) => S.ViewOf(layout, bytes, 0)
      case InRing(g, s, layout) => if g < |rings| then S.ViewOf(layout, rings[g].Origin(s), BaseOf(s)) else None
    }

    /** A queued event is read as its record was published. */
    lemma ReadAsPublished(x: Entry)
      requires Valid() && x in sorter.heap
      ensures x in flat.items && ViewNow(sorter.heap[x]) == ViewOfItem(flat.worlds, flat.items[x], format)
    {
      var item := flat.items[x];
      assert Matches(flat.worlds, item, sorter.heap[x], format);
      if item.Sample? && item.attached {
        AttachedIsLive(flat, x);
        RingTracks(item.ref.ring);
        rings[item.ref.ring].HandleShows(flat.worlds[item.ref.ring], item.ref.index);
      }
    }

    /** Copy one queued sample out of its ring. */
    method DetachOne(x: Entry)
      requires Valid() && flat.hand == None && x in sorter.heap && sorter.heap[x].InRing? && sorter.heap[x].ring < |rings|
      modifies this`flat, sorter`heap, rings[sorter.heap[x].ring], rings[sorter.heap[x].ring].commits
      ensures x in old(flat).items && old(flat).items[x].Sample? && old(flat).items[x].attached
      ensures Real(old(flat).worlds) && old(flat).items[x].ref.ring < |old(flat).worlds|
      ensures Valid() && flat == OneDetached(old(flat), x)
      ensures exists bytes :: sorter.heap == old(sorter.heap)[x := Copied(bytes, old(sorter.heap)[x].layout)]
    {
      hide FlatOk, RingBuffer.Tracks, SampleQueue.Footprint, EventSorter.Valid, S.Decode, S.ViewOf, HandleAt, S.LayoutEnd, Detached;
      NotInRings();
      FlatIsReal(flat);
      var h := sorter.heap[x];
      ghost var item := flat.items[x];
      assert Matches(flat.worlds, item, h, format);
      OneDetachedOk(flat, x);
      ghost var w := flat.worlds[h.ring];
      var bytes := rings[h.ring].CopyOut(h.storage, S.LayoutEnd(h.layout), w, item.ref.index);
      CopyMatches(flat.worlds, item.ref, format, bytes);
      MatchedReplace(flat.worlds, flat.items, sorter.heap, format, x, Sample(item.ref, false), Copied(bytes, h.layout));
      hide Matched, Matches;
      MatchedLater(flat.worlds, OneDetached(flat, x).worlds, OneDetached(flat, x).items, sorter.heap[x := Copied(bytes, h.layout)], format);
      sorter.ReplaceValue(x, Copied(bytes, h.layout));
      flat := OneDetached(flat, x);
    }

    /** Visit every queued event and copy the samples out of their rings. No key changes,
        every event is read as before, and afterwards no ring space is in use: every tail has
        caught up with its reader. */
    method DetachQueuedEvents()
      requires Valid() && flat.hand == None
      modifies this`flat, sorter`heap, RingObjects()
      ensures Valid() && flat == AllDetached(old(flat)) && sorter.Abs() == old(sorter.Abs())
      ensures forall x :: x in sorter.heap ==> !sorter.heap[x].InRing?
      ensures forall x :: x in sorter.heap ==>
        SameSample(old(sorter.heap)[x], sorter.heap[x]) && ViewNow(sorter.heap[x]) == old(ViewNow(sorter.heap[x]))
      ensures forall g :: 0 <= g < |rings| ==>
        && rings[g].live == {} && rings[g].readPos == old(rings[g].readPos)
        && rings[g].tail == rings[g].readPos && rings[g].commits.pending == map[]
    {
      hide SampleQueue.Valid, SampleQueue.ViewNow, FlatOk, RingBuffer.Tracks, SameSample, SampleQueue.Footprint, ViewOfItem, AllDetached;
      ghost var was := flat;
      SameSorter();
      ReadersAre();
      ReadAllAsPublished();
      DetachAll();
      SameSorter();
      ReadersAre();
      ReadAllAsPublished();
      DetachedViews(was, format);
      forall g | 0 <= g < |rings|
        ensures rings[g].live == {} && rings[g].tail == rings[g].readPos && rings[g].commits.pending == map[]
      {
        DetachedReader(was, g);
        CaughtUp(g);
      }
      forall g | 0 <= g < |rings|
        ensures rings[g].readPos == old(rings[g].readPos)
      {
        DetachedReader(was, g);
      }
    }

    lemma ReadAllAsPublished()
      requires Valid()
      ensures forall x :: x in sorter.heap ==>
        x in flat.items && ViewNow(sorter.heap[x]) == ViewOfItem(flat.worlds, flat.items[x], format)
    {
      hide SampleQueue.Valid, SampleQueue.ViewNow, ViewOfItem;
      forall x | x in sorter.heap
        ensures x in flat.items && ViewNow(sorter.heap[x]) == ViewOfItem(flat.worlds, flat.items[x], format)
      {
        ReadAsPublished(x);
      }
    }

    /** The visit itself. */
    method DetachAll()
      requires Valid() && flat.hand == None
      modifies this`flat, sorter`heap, RingObjects()
      ensures Valid() && flat == AllDetached(old(flat)) && sorter.heap.Keys == old(sorter.heap).Keys
      ensures forall x :: x in sorter.heap ==> !sorter.heap[x].InRing? && SameSample(old(sorter.heap)[x], sorter.heap[x])
    {
      hide SampleQueue.Valid, FlatOk, PartlyDetached, AllDetached, OneDetached, Known;
      ghost var was, heap := flat, sorter.heap;
      SameSorter();
      var todo := sorter.heap.Keys;
      StartDetaching(flat);
      while todo != {}
        invariant Valid() && flat.hand == None && PartlyDetached(was, flat, todo) && todo <= sorter.heap.Keys == heap.Keys
        invariant forall x :: x in sorter.heap && x !in todo ==> !sorter.heap[x].InRing?
        invariant forall x :: x in sorter.heap ==> SameSample(heap[x], sorter.heap[x])
        decreases |todo|
      {
        var x :| x in todo;
        SameSorter();
        KindOf(x);
        DetachedNext(was, flat, todo, x);
        todo := todo - {x};
        if sorter.heap[x].InRing? {
          OneDetachedKeeps(flat, x);
          DetachOne(x);
        }
      }
      SameSorter();
      DetachedLast(was, flat);
    }

    lemma ReadersAre()
      requires Valid()
      ensures |flat.worlds| == |rings| && forall g :: 0 <= g < |rings| ==> rings[g].readPos == ReadPos(flat.worlds[g])
    {
      hide FlatOk, Matched, EventSorter.Valid, RingBuffer.Valid, WorldOk, Mirrors, Handles;
    }

    lemma KindOf(x: Entry)
      requires Valid() && x in sorter.heap
      ensures x in flat.items && (sorter.heap[x].InRing? <==> flat.items[x].Sample? && flat.items[x].attached)
      ensures sorter.heap[x].InRing? ==> sorter.heap[x].ring < |rings| && flat.items[x].ref.ring == sorter.heap[x].ring
    {
      hide FlatOk, EventSorter.Valid, RingBuffer.Tracks, S.Decode, S.ViewOf, HandleAt;
      assert Matches(flat.worlds, flat.items[x], sorter.heap[x], format);
    }

    /** A ring from which nothing is in use has nothing pending. */
    lemma CaughtUp(g: nat)
      requires Valid() && g < |rings| && |flat.worlds| == |rings| && flat.worlds[g].live == {}
      ensures rings[g].live == {} && rings[g].tail == rings[g].readPos && rings[g].commits.pending == map[]
    {
      hide FlatOk, Matched, EventSorter.Valid, RingBuffer.Tracks;
      rings[g].NothingInUse(flat.worlds[g]);
    }

    // ------------------------------------------------------------- finishing

    /** Take the next event out of the sorter, read its sample, and give its space back. The
        sample is read as its record was published, detached or not. */
    method FinishNext(force: bool) returns (taken: bool, view: Option<S.View>)
      requires Valid() && flat.hand == None
      modifies this`flat, sorter, RingObjects()
      ensures FlatOk(old(flat)) && taken == Releases(old(flat).s, force)
      ensures Valid() && flat == Finished(old(flat), force)
      ensures if taken
        then |flat.done| == |old(flat).done| + 1 && view == ViewOfItem(flat.worlds, flat.done[|old(flat).done|], format)
        else view == None
    {
      hide SampleQueue.Valid, FlatOk, Matches, Numbered, Gave, TakenOut, ViewOfItem, Ready, Real;
      ghost var was := flat;
      SameSorter();
      FlatNumbered(flat);
      var v := PopEvent(force);
      taken, view := v.Some?, None;
      if taken {
        ghost var item := was.items[First(was.s.heap)];
        TakenOutIs(was);
        SameSorter();
        GaveLogs(flat);
        view := FinishTaken(v.value, item);
      }
    }

    /** The next event leaves the sorter. */
    method PopEvent(force: bool) returns (v: Option<Held>)
      requires Valid() && flat.hand == None
      modifies this`flat, sorter
      ensures FlatOk(old(flat)) && Valid() && (v.Some? <==> Releases(old(flat).s, force))
      ensures v == None ==> flat == old(flat)
      ensures v.Some? ==>
        var x := First(old(flat).s.heap);
        x in old(flat).items && flat == TakenOut(old(flat)) && Matches(flat.worlds, old(flat).items[x], v.value, format)
    {
      hide FlatOk, Matched, RingBuffer.Tracks, SampleQueue.Footprint, EventSorter.Valid, First, Ready, Numbered;
      NotInRings();
      FlatNumbered(flat);
      ghost var was, heap := flat, sorter.heap;
      SameHeap(flat, sorter.heap, format);
      v := sorter.Take(force);
      if v.Some? {
        ghost var x := First(was.s.heap);
        TakenOutOk(was);
        MatchedWithout(was.worlds, was.items, heap, format, x);
        flat := TakenOut(flat);
      }
    }

    /** Read the sample of an event that has just left the queue, and give its space back. */
    method FinishTaken(h: Held, ghost item: Item) returns (view: Option<S.View>)
      requires Valid() && Matches(flat.worlds, item, h, format)
      requires flat.hand == if item.Sample? && item.attached then Some(item.ref) else None
      modifies this`flat, RingObjects()
      ensures Real(old(flat).worlds) && (old(flat).hand.Some? ==> old(flat).hand.value.ring < |old(flat).worlds|)
      ensures Valid() && flat == Gave(old(flat)) && view == ViewOfItem(flat.worlds, item, format)
    {
      hide SampleQueue.Valid, FlatOk, S.Decode, S.ViewOf, HandleAt, StepWorld, RingBuffer.Tracks, RingBuffer.Valid, RingBuffer.Holds, RingBuffer.Origin;
      SameSorter();
      match h
      case Other =>
        view := None;
      case Copied(bytes, layout) =>
        view := S.ViewOf(layout, bytes, 0);
      case InRing(k, s, layout) =>
        HandIsLive(flat);
        RingTracks(k);
        rings[k].HandleShows(flat.worlds[k], item.ref.index);
        var bytes := rings[k].AsBytes(s);
        view := S.ViewOf(layout, bytes, BaseOf(s));
        SteppedGrows(flat, k, Release(item.ref.index));
        RefStays(flat.worlds, Gave(flat).worlds, item.ref);
        GiveBack(k, s);
    }

    // ------------------------------------------------------------- any step

    method BeginRing(group: int)
      requires Valid() && (sorter.currentGroup.Some? ==> sorter.currentGroup.value <= group)
      modifies this`flat, sorter
      ensures Valid() && flat == old(flat).(s := old(flat).s.(current := Some(group)))
    {
      hide Matched, RingBuffer.Tracks, SampleQueue.Footprint, SampleQueue.Apart, EventSorter.Valid, InUse, Unshared, AllKnown;
      NotInRings();
      sorter.BeginGroup(group);
      flat := flat.(s := flat.s.(current := Some(group)));
    }

    method EndRound()
      requires Valid() && sorter.round < USIZE_MAX
      modifies this`flat, sorter
      ensures Valid() && flat == old(flat).(s := old(flat).s.(round := old(flat).s.round + 1, current := None))
    {
      hide Matched, RingBuffer.Tracks, SampleQueue.Footprint, SampleQueue.Apart, EventSorter.Valid, InUse, Unshared, AllKnown;
      NotInRings();
      sorter.AdvanceRound();
      flat := flat.(s := flat.s.(round := flat.s.round + 1, current := None));
    }

    method AbandonRound()
      requires Valid()
      modifies this`flat, sorter
      ensures Valid() && flat == old(flat).(s := old(flat).s.(current := None))
    {
      hide Matched, RingBuffer.Tracks, SampleQueue.Footprint, SampleQueue.Apart, EventSorter.Valid, InUse, Unshared, AllKnown;
      NotInRings();
      sorter.AbortRound();
      flat := flat.(s := flat.s.(current := None));
    }

    lemma HeadIs(k: nat)
      requires Valid() && k < |rings|
      ensures k < |flat.worlds| && rings[k].head == Head(flat.worlds[k])
      ensures |flat.worlds[k].memory| > 0 && Positions(rings[k].tail, rings[k].readPos, rings[k].head) == PositionsOf(flat.worlds[k])
    {
      RingTracks(k);
      hide SampleQueue.Valid, TailOf, Handles;
      rings[k].TailMatches(flat.worlds[k], Handles(flat.worlds[k]));
    }

    /** One step of the kernel or of the reader; a step that is not enabled does nothing. */
    method Perform(act: Act) returns (events: seq<Event>, views: seq<Option<S.View>>)
      requires Valid() && flat.hand == None
      modifies this`flat, sorter, Footprint()
      ensures FlatOk(old(flat)) && Valid() && flat == ActFlat(old(flat), format, act)
      ensures flat.events == old(flat).events + events
      ensures views == if act.FinishOne? && Releases(old(flat).s, act.force)
        then [LastView(flat, format)] else []
    {
      hide SampleQueue.Valid, FlatOk, AllDetached, Stepped, Finished, EventRead, LastView, Releases, Known;
      SameSorter();
      ActLogs(flat, format, act);
      events, views := [], [];
      assert flat.events + [] == flat.events;
      match act
      case Kernel(k, step) =>
        if k < |rings| && (step.Write? || step.Publish?) {
          KernelStep(k, step);
        }
      case Read(k, limit, other) =>
        if k < |rings| {
          HeadIs(k);
          if limit <= rings[k].head && sorter.currentGroup.Some? && sorter.nextSequence < U64_LIMIT - 1 {
            var e := ReadEvent(k, limit, other);
            events := [e];
          }
        }
      case BeginRing(group) =>
        if sorter.currentGroup == None || sorter.currentGroup.value <= group {
          BeginRing(group);
        }
      case EndRound =>
        if sorter.round < USIZE_MAX {
          EndRound();
        }
      case AbandonRound => AbandonRound();
      case DetachQueued => DetachQueuedEvents();
      case FinishOne(force) =>
        var taken, view := FinishNext(force);
        if taken {
          LastIs(flat, format);
          views := [view];
        }
    }
  }

  // ------------------------------------------------------------ whole runs

  method OpenRing(shape: Shape) returns (ring: RingBuffer)
    requires shape.committed < U64_LIMIT
    ensures fresh(ring) && fresh(ring.data) && fresh(ring.commits) && ring.Tracks(StartWorld(shape.exponent, shape.committed))
  {
    ring := new RingBuffer(shape.exponent, shape.committed);
    StartRefines(ring, StartWorld(shape.exponent, shape.committed));
    assert Handles(StartWorld(shape.exponent, shape.committed)) == map[];
  }

  method OpenRings(shapes: seq<Shape>) returns (rings: seq<RingBuffer>)
    requires forall g :: 0 <= g < |shapes| ==> shapes[g].committed < U64_LIMIT
    ensures |rings| == |shapes|
    ensures forall g :: 0 <= g < |rings| ==> fresh(rings[g]) && fresh(rings[g].data) && fresh(rings[g].commits)
    ensures forall g :: 0 <= g < |rings| ==> rings[g].Tracks(StartWorld(shapes[g].exponent, shapes[g].committed))
    ensures forall i, j :: 0 <= i < |rings| && 0 <= j < |rings| && i != j ==>
      rings[i] != rings[j] && rings[i].data != rings[j].data && rings[i].commits != rings[j].commits
  {
    hide RingBuffer.Tracks, StartWorld;
    rings := [];
    for k := 0 to |shapes|
      invariant |rings| == k
      invariant forall g :: 0 <= g < k ==> fresh(rings[g]) && fresh(rings[g].data) && fresh(rings[g].commits)
      invariant forall g :: 0 <= g < k ==> rings[g].Tracks(StartWorld(shapes[g].exponent, shapes[g].committed))
      invariant forall i, j :: 0 <= i < k && 0 <= j < k && i != j ==>
        rings[i] != rings[j] && rings[i].data != rings[j].data && rings[i].commits != rings[j].commits
    {
      var ring := OpenRing(shapes[k]);
      rings := rings + [ring];
    }
  }

  /** The views are those of the finished events. */
  ghost predicate SeenAs(f: Flat, format: S.Format, views: seq<Option<S.View>>) {
    |views| == |f.done| && forall j :: 0 <= j < |views| ==> views[j] == ViewOfItem(f.worlds, f.done[j], format)
  }

  ghost function LastView(f: Flat, format: S.Format): Option<S.View> {
    if f.done == [] then None else ViewOfItem(f.worlds, f.done[|f.done| - 1], format)
  }

  lemma LastIs(f: Flat, format: S.Format)
    requires f.done != []
    ensures LastView(f, format) == ViewOfItem(f.worlds, f.done[|f.done| - 1], format)
  {
  }

  lemma NothingSeen(f: Flat, format: S.Format)
    requires f.done == []
    ensures SeenAs(f, format, [])
  {
  }

  lemma SeenLater(f: Flat, format: S.Format, act: Act, before: seq<Option<S.View>>, views: seq<Option<S.View>>)
    requires FlatOk(f) && f.hand == None && SeenAs(f, format, before)
    requires views == if act.FinishOne? && Releases(f.s, act.force) then [LastView(ActFlat(f, format, act), format)] else []
    ensures SeenAs(ActFlat(f, format, act), format, before + views)
  {
    var r := ActFlat(f, format, act);
    ActOk(f, format, act);
    ActLogs(f, format, act);
    hide ActFlat, ViewOfItem, Releases, AllGrow, Known, InUse, Unshared, Numbered, First;
    forall j | 0 <= j < |before|
      ensures ViewOfItem(r.worlds, r.done[j], format) == before[j]
    {
      assert r.done[j] == f.done[j] && f.done[j] in f.done;
      ViewStays(f.worlds, r.worlds, f.done[j], format);
    }
  }

  /** Over every schedule of kernel steps, reads, detaches and finished events on any rings,
      the queue does exactly what the flat queue does, which holds no memory: the same reads
      come to the same ends, every finished sample is seen as its record was published, and
      every ring stands where its flat ring does. */
  method Run(shapes: seq<Shape>, format: S.Format, schedule: seq<Act>)
      returns (events: seq<Event>, views: seq<Option<S.View>>, positions: seq<Positions>)
    requires forall g :: 0 <= g < |shapes| ==> shapes[g].committed < U64_LIMIT
    ensures var end := RunFlat(StartFlat(shapes), format, schedule);
      && events == end.events && SeenAs(end, format, views)
      && |positions| == |end.worlds| == |shapes|
      && forall g :: 0 <= g < |positions| ==> positions[g] == PositionsOf(end.worlds[g])
  {
    hide SampleQueue.Valid, ActFlat, FlatOk, RingBuffer.Tracks, StartWorld, SeenAs, PositionsOf, Releases, LastView;
    ghost var start := StartFlat(shapes);
    var rings := OpenRings(shapes);
    NothingLiveAtStart(shapes);
    var queue := new SampleQueue(rings, format, start.worlds);
    events, views := [], [];
    NothingSeen(start, format);
    for k := 0 to |schedule|
      invariant fresh(queue) && fresh(queue.sorter) && fresh(queue.Footprint()) && queue.format == format && queue.rings == rings
      invariant queue.Valid() && queue.flat.hand == None && queue.flat == RunFlat(start, format, schedule[..k])
      invariant events == queue.flat.events && SeenAs(queue.flat, format, views)
    {
      assert schedule[..k + 1][..k] == schedule[..k];
      ghost var f := queue.flat;
      var e, v := queue.Perform(schedule[k]);
      ActOk(f, format, schedule[k]);
      SeenLater(f, format, schedule[k], views, v);
      events, views := events + e, views + v;
    }
    assert schedule[..|schedule|] == schedule;
    positions := seq(|rings|, g requires 0 <= g < |rings| reads rings => Positions(rings[g].tail, rings[g].readPos, rings[g].head));
    queue.SameSorter();
    forall g | 0 <= g < |rings|
      ensures |queue.flat.worlds[g].memory| > 0 && positions[g] == PositionsOf(queue.flat.worlds[g])
    {
      queue.HeadIs(g);
    }
  }
}
