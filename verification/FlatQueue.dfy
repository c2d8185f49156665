/** The queue of samples over flat rings, where nothing is ever held: an event is its
    record's number, and a sample shows what its record showed when it was published. */
module FlatQueue {
  import opened Bits
  import opened Ring
  import opened Sorter
  import Recorder
  import S = SampleRecord

  /** The address of a record, as far as alignment is concerned: rings are page aligned,
      and copies are word aligned. */
  function BaseOf(s: Storage): (n: nat) {
    if s.Mapped? then s.offset else 0
  }

  /** What reading one event came to. */
  datatype Event = Ended | Rejected | Skipped | QueuedAt(timestamp: nat)

  /** What becomes of a record: refused, skipped, kept in place as a sample, or given back
      and queued as an event of its own. */
  datatype Fate = Refuse | Skip | Keep(sample: S.Sample) | Own(timestamp: nat)

  /** `other` is what parsing a record that is no aligned sample comes to. */
  function FateOf(bytes: seq<Byte>, base: nat, format: S.Format, other: Option<nat>): (r: Fate) {
    if S.IsSampleHeader(bytes) && base % 8 == 0 then
      match S.Decode(bytes, base, format)
      case None => Refuse
      case Some(sample) =>
        if Recorder.Usable(Some((sample.pid, sample.tid)), Some(sample.time)) then Keep(sample) else Skip
    else
      match other
      case None => Refuse
      case Some(timestamp) => Own(timestamp)
  }

  function EventOf(fate: Fate): (r: Event) {
    match fate
    case Refuse => Rejected
    case Skip => Skipped
    case Keep(sample) => QueuedAt(sample.time)
    case Own(timestamp) => QueuedAt(timestamp)
  }

  // ---------------------------------------------------- records as numbers

  /** A received record: its ring and its number there. */
  datatype Ref = Ref(ring: nat, index: nat)

  ghost predicate Known(worlds: seq<World>, r: Ref) {
    r.ring < |worlds| && |worlds[r.ring].memory| > 0 && r.index < |worlds[r.ring].received|
  }

  ghost function RecordOf(worlds: seq<World>, r: Ref): seq<Byte>
    requires Known(worlds, r)
  {
    worlds[r.ring].received[r.index]
  }

  ghost function HandleOf(worlds: seq<World>, r: Ref): Storage
    requires Known(worlds, r)
  {
    HandleAt(worlds[r.ring], r.index)
  }

  ghost function FateAt(worlds: seq<World>, r: Ref, format: S.Format, other: Option<nat>): Fate
    requires Known(worlds, r)
  {
    FateOf(RecordOf(worlds, r), BaseOf(HandleOf(worlds, r)), format, other)
  }

  /** What a sample shows: decode the record as it was published and look at its parts. */
  ghost function ViewAt(worlds: seq<World>, r: Ref, format: S.Format): Option<S.View>
    requires Known(worlds, r)
  {
    match S.Decode(RecordOf(worlds, r), BaseOf(HandleOf(worlds, r)), format)
    case None => None
    case Some(sample) => S.ViewOf(sample.layout, RecordOf(worlds, r), BaseOf(HandleOf(worlds, r)))
  }

  // -------------------------------------------------------- the flat queue

  /** A queued event: one without a record, or a sample by its record's number, which may
      still lie in its ring. */
  datatype Item = Plain | Sample(ref: Ref, attached: bool)

  /** Flat rings and a queue of record numbers. `hand` is the record being handled, `events`
      what the reads came to and `done` what left the queue, both in order. */
  datatype Flat = Flat(
    worlds: seq<World>, s: State, items: map<Entry, Item>, hand: Option<Ref>, events: seq<Event>, done: seq<Item>)

  ghost function ViewOfItem(worlds: seq<World>, item: Item, format: S.Format): Option<S.View> {
    if item.Sample? && Known(worlds, item.ref) then ViewAt(worlds, item.ref, format) else None
  }

  ghost predicate Real(worlds: seq<World>) {
    forall g :: 0 <= g < |worlds| ==> |worlds[g].memory| > 0
  }

  ghost function NewEntry(s: State, key: int): Entry
    requires s.current.Some?
  {
    Entry(s.current.value, s.round, key, s.next)
  }

  ghost function Stepped(f: Flat, k: nat, step: Step): (r: Flat)
    requires Real(f.worlds) && k < |f.worlds|
    ensures Real(r.worlds)
  {
    f.(worlds := f.worlds[k := StepWorld(f.worlds[k], step)])
  }

  /** Take the next record of a ring in hand, if there is one. */
  ghost function Took(f: Flat, k: nat, limit: nat): (r: Flat)
    requires Real(f.worlds) && k < |f.worlds|
    ensures Real(r.worlds)
  {
    var t := Stepped(f, k, ReadTo(limit));
    if |t.worlds[k].received| == |f.worlds[k].received| then t else t.(hand := Some(Ref(k, |f.worlds[k].received|)))
  }

  /** Give the record in hand back. */
  ghost function Gave(f: Flat): (r: Flat)
    requires Real(f.worlds) && (f.hand.Some? ==> f.hand.value.ring < |f.worlds|)
    ensures Real(r.worlds)
  {
    match f.hand
    case None => f
    case Some(ref) => Stepped(f, ref.ring, Release(ref.index)).(hand := None)
  }

  ghost function Queued(f: Flat, key: int, item: Item): Flat
    requires f.s.current.Some?
  {
    f.(s := Queue(f.s, key), items := f.items[NewEntry(f.s, key) := item])
  }

  /** Queue the sample in hand; it stays in its ring. */
  ghost function Kept(f: Flat, time: nat): Flat
    requires f.s.current.Some? && f.hand.Some?
  {
    Queued(f, time, Sample(f.hand.value, true)).(hand := None)
  }

  ghost function Handled(f: Flat, fate: Fate): (r: Flat)
    requires Real(f.worlds) && f.hand.Some? && f.hand.value.ring < |f.worlds| && f.s.current.Some?
  {
    match fate
    case Refuse => Gave(f)
    case Skip => Gave(f)
    case Keep(sample) => Kept(f, sample.time)
    case Own(timestamp) => Queued(Gave(f), timestamp, Plain)
  }

  /** Read one event of a ring. */
  ghost function EventRead(f: Flat, k: nat, limit: nat, other: Option<nat>, format: S.Format): (r: Flat)
    requires Real(f.worlds) && k < |f.worlds| && f.hand == None && f.s.current.Some?
  {
    var t := Took(f, k, limit);
    if t.hand == None then t.(events := f.events + [if ReadOf(f.worlds[k], limit) == AtEnd then Ended else Rejected])
    else
      TookIsKnown(f, k, limit);
      var fate := FateAt(t.worlds, t.hand.value, format, other);
      Handled(t, fate).(events := f.events + [EventOf(fate)])
  }

  /** Copy every queued sample out of its ring. */
  ghost function AllDetached(f: Flat): Flat {
    f.(worlds := seq(|f.worlds|, g requires 0 <= g < |f.worlds| => f.worlds[g].(live := {})),
       items := map x | x in f.items :: Unattached(f.items[x]))
  }

  function Unattached(item: Item): (r: Item) {
    if item.Sample? then item.(attached := false) else item
  }

  /** The sample of one event is copied out of its ring. */
  ghost function OneDetached(f: Flat, x: Entry): (r: Flat)
    requires Real(f.worlds) && x in f.items && f.items[x].Sample? && f.items[x].ref.ring < |f.worlds|
  {
    var r := f.items[x].ref;
    f.(worlds := f.worlds[r.ring := f.worlds[r.ring].(live := f.worlds[r.ring].live - {r.index})],
       items := f.items[x := Unattached(f.items[x])])
  }

  ghost predicate Releases(s: State, force: bool)
    requires Numbered(s.heap)
  {
    s.heap != {} && (force || Ready(s))
  }

  /** The first event leaves the queue; a record still in its ring is then in hand. */
  ghost function TakenOut(f: Flat): Flat
    requires f.s.heap != {} && Numbered(f.s.heap) && First(f.s.heap) in f.items
  {
    var x := First(f.s.heap);
    var item := f.items[x];
    f.(s := Remove(f.s), items := f.items - {x}, done := f.done + [item],
       hand := if item.Sample? && item.attached then Some(item.ref) else None)
  }

  ghost function Finished(f: Flat, force: bool): (r: Flat)
    requires FlatOk(f) && f.hand == None
  {
    if Releases(f.s, force) then Gave(TakenOut(f)) else f
  }

  // -------------------------------------------------- what the queue keeps

  ghost function Attached(items: map<Entry, Item>, g: nat): set<nat> {
    set x | x in items && items[x].Sample? && items[x].attached && items[x].ref.ring == g :: items[x].ref.index
  }

  ghost function InHand(hand: Option<Ref>, g: nat): set<nat> {
    if hand.Some? && hand.value.ring == g then {hand.value.index} else {}
  }

  /** No record is queued twice, nor queued and in hand. */
  ghost predicate Unshared(items: map<Entry, Item>, hand: Option<Ref>) {
    && (forall x, y :: x in items && y in items && x != y && items[x].Sample? && items[y].Sample? ==> items[x].ref != items[y].ref)
    && (forall x :: x in items && items[x].Sample? ==> hand != Some(items[x].ref))
  }

  /** The records in use in a ring are those queued there and the one in hand. */
  ghost predicate InUse(worlds: seq<World>, items: map<Entry, Item>, hand: Option<Ref>) {
    forall g :: 0 <= g < |worlds| ==> worlds[g].live == Attached(items, g) + InHand(hand, g)
  }

  ghost predicate AllKnown(worlds: seq<World>, items: map<Entry, Item>, hand: Option<Ref>, done: seq<Item>) {
    && (forall x :: x in items && items[x].Sample? ==> Known(worlds, items[x].ref))
    && (hand.Some? ==> Known(worlds, hand.value))
    && (forall d :: d in done && d.Sample? ==> Known(worlds, d.ref))
  }

  ghost predicate FlatOk(f: Flat) {
    && Real(f.worlds) && f.items.Keys == f.s.heap && Numbered(f.s.heap) && (forall x :: x in f.s.heap ==> x.sequence < f.s.next)
    && AllKnown(f.worlds, f.items, f.hand, f.done) && Unshared(f.items, f.hand) && InUse(f.worlds, f.items, f.hand)
  }

  lemma FlatIsReal(f: Flat)
    requires FlatOk(f)
    ensures Real(f.worlds)
  {
  }

  lemma FlatNumbered(f: Flat)
    requires FlatOk(f)
    ensures Numbered(f.s.heap)
  {
  }

  lemma HandIsLive(f: Flat)
    requires FlatOk(f) && f.hand.Some?
    ensures Known(f.worlds, f.hand.value) && f.hand.value.index in f.worlds[f.hand.value.ring].live
  {
    hide Attached;
  }

  lemma AttachedIsLive(f: Flat, x: Entry)
    requires FlatOk(f) && x in f.items && f.items[x].Sample? && f.items[x].attached
    ensures var r := f.items[x].ref; Known(f.worlds, r) && r.index in f.worlds[r.ring].live
  {
    var r := f.items[x].ref;
    assert Known(f.worlds, r) && r.index in Attached(f.items, r.ring);
  }

  // -------------------------------------------- records keep their numbers

  /** Records keep their numbers. */
  ghost predicate Grows(w: World, v: World) {
    0 < |w.memory| == |v.memory| && v.base == w.base && w.received <= v.received
  }

  ghost predicate AllGrow(worlds: seq<World>, later: seq<World>) {
    |later| == |worlds| && forall g :: 0 <= g < |worlds| ==> Grows(worlds[g], later[g])
  }

  lemma StepGrows(w: World, step: Step)
    requires |w.memory| > 0
    ensures Grows(w, StepWorld(w, step))
  {
    hide Split, TailOf, SlotBytes, Slot, Join;
  }

  lemma SteppedGrows(f: Flat, k: nat, step: Step)
    requires Real(f.worlds) && k < |f.worlds|
    ensures AllGrow(f.worlds, Stepped(f, k, step).worlds)
  {
    hide StepWorld;
    StepGrows(f.worlds[k], step);
  }

  lemma HandleStays(w: World, v: World, i: nat)
    requires Grows(w, v) && i < |w.received|
    ensures v.received[i] == w.received[i] && HandleAt(v, i) == HandleAt(w, i)
  {
    hide Join;
    assert v.received[..i] == w.received[..i] && v.received[..i + 1] == w.received[..i + 1];
  }

  lemma RefStays(worlds: seq<World>, later: seq<World>, r: Ref)
    requires AllGrow(worlds, later) && Known(worlds, r)
    ensures Known(later, r) && RecordOf(later, r) == RecordOf(worlds, r) && HandleOf(later, r) == HandleOf(worlds, r)
  {
    hide HandleAt;
    HandleStays(worlds[r.ring], later[r.ring], r.index);
  }

  /** What a record shows does not change while the rings go on. */
  lemma ViewStays(worlds: seq<World>, later: seq<World>, item: Item, format: S.Format)
    requires AllGrow(worlds, later) && (item.Sample? ==> Known(worlds, item.ref))
    ensures ViewOfItem(later, item, format) == ViewOfItem(worlds, item, format)
    ensures ViewOfItem(later, Unattached(item), format) == ViewOfItem(worlds, item, format)
  {
    hide S.Decode, S.ViewOf, HandleOf, RecordOf, AllGrow;
    if item.Sample? {
      RefStays(worlds, later, item.ref);
    }
  }

  lemma KnownLater(worlds: seq<World>, later: seq<World>, items: map<Entry, Item>, hand: Option<Ref>, done: seq<Item>)
    requires AllGrow(worlds, later) && AllKnown(worlds, items, hand, done)
    ensures AllKnown(later, items, hand, done)
  {
    assert forall g :: 0 <= g < |worlds| ==> |worlds[g].received| <= |later[g].received|;
  }

  lemma NothingGrows(f: Flat)
    requires FlatOk(f)
    ensures AllGrow(f.worlds, f.worlds)
  {
  }

  lemma GrowsOn(a: seq<World>, b: seq<World>, c: seq<World>)
    requires AllGrow(a, b) && AllGrow(b, c)
    ensures AllGrow(a, c)
  {
    forall g | 0 <= g < |a|
      ensures Grows(a[g], c[g])
    {
      assert Grows(a[g], b[g]) && Grows(b[g], c[g]);
    }
  }

  lemma KernelKeeps(w: World, step: Step)
    requires |w.memory| > 0 && (step.Write? || step.Publish?)
    ensures var v := StepWorld(w, step); v.live == w.live && v.received == w.received && v.base == w.base
  {
    hide TailOf, SlotBytes, Slot, Join;
  }

  /** The kernel takes no handle away. */
  lemma KernelHandles(w: World, step: Step)
    requires |w.memory| > 0 && (step.Write? || step.Publish?)
    ensures Handles(StepWorld(w, step)) == Handles(w)
  {
    hide TailOf, SlotBytes, Slot, Join, StepWorld;
    var v := StepWorld(w, step);
    assert v.live == w.live && v.received == w.received && v.base == w.base by { KernelKeeps(w, step); }
    forall i | i in w.live && i < |w.received|
      ensures HandleAt(v, i) == HandleAt(w, i)
    {
      HandleStays(w, v, i);
    }
  }

  // ---------------------------------------------------------- single steps

  /** The kernel changes no record's number and no record's use. */
  lemma KernelOk(f: Flat, k: nat, step: Step)
    requires FlatOk(f) && k < |f.worlds| && (step.Write? || step.Publish?)
    ensures FlatOk(Stepped(f, k, step))
  {
    SteppedGrows(f, k, step);
    var t := Stepped(f, k, step);
    KnownLater(f.worlds, t.worlds, f.items, f.hand, f.done);
    hide Unshared, AllKnown, TailOf, SlotBytes, Slot, Attached;
  }

  lemma TookIsKnown(f: Flat, k: nat, limit: nat)
    requires Real(f.worlds) && k < |f.worlds| && f.hand == None
    ensures var t := Took(f, k, limit); t.hand.Some? ==> Known(t.worlds, t.hand.value)
  {
    hide Split, UnreadIn, TailOf;
  }

  /** A record that is taken is a new one, and in hand. */
  lemma TookOk(f: Flat, k: nat, limit: nat)
    requires FlatOk(f) && k < |f.worlds| && f.hand == None
    ensures FlatOk(Took(f, k, limit))
  {
    SteppedGrows(f, k, ReadTo(limit));
    var t := Took(f, k, limit);
    KnownLater(f.worlds, t.worlds, f.items, f.hand, f.done);
    TookIsKnown(f, k, limit);
    if t.hand.Some? {
      forall x | x in f.items && f.items[x].Sample?
        ensures f.items[x].ref != t.hand.value
      {
        assert Known(f.worlds, f.items[x].ref);
      }
    }
    hide Split, UnreadIn, Attached;
  }

  /** A read that tells of a record takes it in hand under that handle. */
  lemma ReadTells(f: Flat, k: nat, limit: nat)
    requires FlatOk(f) && f.hand == None && k < |f.worlds| && limit <= Head(f.worlds[k])
    ensures var t := Took(f, k, limit); var r := ReadOf(f.worlds[k], limit);
      && t.events == f.events && t.done == f.done && t.s == f.s
      && (r.Record? <==> t.hand.Some?)
      && (r.Record? ==> t.hand.value.ring == k && Known(t.worlds, t.hand.value) && r.record == HandleOf(t.worlds, t.hand.value))
  {
    TookIsKnown(f, k, limit);
    hide Split, HandleAt, Join, Start;
  }

  lemma GaveOk(f: Flat)
    requires FlatOk(f)
    ensures FlatOk(Gave(f))
  {
    if f.hand.Some? {
      var r := f.hand.value;
      SteppedGrows(f, r.ring, Release(r.index));
      KnownLater(f.worlds, Gave(f).worlds, f.items, f.hand, f.done);
      NotAttached(f.items, r);
      hide Unshared, AllKnown, Attached;
    }
  }

  lemma GaveKeeps(f: Flat)
    requires FlatOk(f)
    ensures Gave(f).hand == None && Gave(f).s == f.s
  {
  }

  lemma GaveLogs(f: Flat)
    requires FlatOk(f)
    ensures Gave(f).done == f.done && Gave(f).events == f.events
  {
  }

  lemma GaveGrows(f: Flat)
    requires FlatOk(f)
    ensures AllGrow(f.worlds, Gave(f).worlds) && Gave(f).hand == None
  {
    NothingGrows(f);
    if f.hand.Some? {
      SteppedGrows(f, f.hand.value.ring, Release(f.hand.value.index));
    }
  }

  lemma NotAttached(items: map<Entry, Item>, r: Ref)
    requires Unshared(items, Some(r))
    ensures r.index !in Attached(items, r.ring)
  {
  }

  lemma AttachedPush(items: map<Entry, Item>, x: Entry, item: Item, g: nat)
    requires x !in items
    ensures Attached(items[x := item], g) ==
      Attached(items, g) + if item.Sample? && item.attached && item.ref.ring == g then {item.ref.index} else {}
  {
    var more := items[x := item];
    forall i | i in Attached(items, g)
      ensures i in Attached(more, g)
    {
      var y :| y in items && items[y].Sample? && items[y].attached && items[y].ref.ring == g && items[y].ref.index == i;
      assert more[y] == items[y];
    }
    assert more[x] == item;
  }

  lemma QueuedUnshared(items: map<Entry, Item>, hand: Option<Ref>, x: Entry, item: Item)
    requires Unshared(items, hand) && x !in items && (item == Plain || (hand.Some? && item.Sample? && item.ref == hand.value))
    ensures Unshared(items[x := item], None)
  {
  }

  /** A new event may carry no record, or the one in hand. */
  lemma QueuedOk(f: Flat, key: int, item: Item)
    requires FlatOk(f) && f.s.current.Some?
    requires (item == Plain && f.hand == None) || (f.hand.Some? && item == Sample(f.hand.value, true))
    ensures NewEntry(f.s, key) !in f.items && FlatOk(Queued(f, key, item).(hand := None))
  {
    var x := NewEntry(f.s, key);
    hide Unshared, Attached, InUse, Numbered, Known;
    QueuedNumbered(f.s, key);
    QueuedUnshared(f.items, f.hand, x, item);
    QueuedInUse(f.worlds, f.items, f.hand, x, item);
    assert f.items[x := item].Keys == f.items.Keys + {x};
  }

  lemma QueuedNumbered(s: State, key: int)
    requires s.current.Some? && Numbered(s.heap) && forall x :: x in s.heap ==> x.sequence < s.next
    ensures NewEntry(s, key) !in s.heap && Numbered(Queue(s, key).heap)
  {
  }

  lemma QueuedInUse(worlds: seq<World>, items: map<Entry, Item>, hand: Option<Ref>, x: Entry, item: Item)
    requires InUse(worlds, items, hand) && x !in items
    requires (item == Plain && hand == None) || (hand.Some? && item == Sample(hand.value, true))
    ensures InUse(worlds, items[x := item], None)
  {
    hide Attached;
    forall g | 0 <= g < |worlds|
      ensures worlds[g].live == Attached(items[x := item], g) + InHand(None, g)
    {
      AttachedPush(items, x, item, g);
    }
  }

  lemma HandledOk(f: Flat, fate: Fate)
    requires FlatOk(f) && f.hand.Some? && f.s.current.Some?
    ensures FlatOk(Handled(f, fate)) && Handled(f, fate).hand == None
  {
    GaveOk(f);
    hide FlatOk, Gave;
    match fate
    case Refuse =>
    case Skip =>
    case Keep(sample) => QueuedOk(f, sample.time, Sample(f.hand.value, true));
    case Own(timestamp) => QueuedOk(Gave(f), timestamp, Plain);
  }

  lemma HandledLogs(f: Flat, fate: Fate)
    requires Real(f.worlds) && f.hand.Some? && f.hand.value.ring < |f.worlds| && f.s.current.Some?
    ensures Handled(f, fate).events == f.events
  {
  }

  lemma HandledGrows(f: Flat, fate: Fate)
    requires FlatOk(f) && f.hand.Some? && f.s.current.Some?
    ensures AllGrow(f.worlds, Handled(f, fate).worlds)
  {
    NothingGrows(f);
    GaveGrows(f);
    hide FlatOk, AllGrow, Gave;
  }

  lemma TakenOutOk(f: Flat)
    requires FlatOk(f) && f.hand == None && f.s.heap != {}
    ensures First(f.s.heap) in f.items && FlatOk(TakenOut(f))
  {
    var x := First(f.s.heap);
    var rest := f.items - {x};
    assert x in f.items && rest[x := f.items[x]] == f.items;
    forall g | 0 <= g < |f.worlds|
      ensures f.worlds[g].live == Attached(rest, g) + InHand(TakenOut(f).hand, g)
    {
      AttachedPush(rest, x, f.items[x], g);
    }
    assert rest.Keys == f.s.heap - {x};
    hide Attached, First;
  }

  lemma TakenOutIs(f: Flat)
    requires FlatOk(f) && f.hand == None && f.s.heap != {}
    ensures First(f.s.heap) in f.items
    ensures var t := TakenOut(f); var item := f.items[First(f.s.heap)];
      && t.worlds == f.worlds && t.done == f.done + [item]
      && t.hand == if item.Sample? && item.attached then Some(item.ref) else None
  {
  }

  // ------------------------------------------------------------- detaching

  lemma AttachedWithout(items: map<Entry, Item>, x: Entry, g: nat)
    requires x in items && items[x].Sample? && items[x].attached && Unshared(items, None)
    ensures Attached(items[x := Unattached(items[x])], g) ==
      Attached(items, g) - if items[x].ref.ring == g then {items[x].ref.index} else {}
  {
    var rest := items - {x};
    assert rest[x := items[x]] == items && rest[x := Unattached(items[x])] == items[x := Unattached(items[x])];
    AttachedPush(rest, x, items[x], g);
    AttachedPush(rest, x, Unattached(items[x]), g);
    if items[x].ref.ring == g {
      NotAttached(rest, items[x].ref);
    }
  }

  lemma OneDetachedOk(f: Flat, x: Entry)
    requires FlatOk(f) && f.hand == None && x in f.items && f.items[x].Sample? && f.items[x].attached
    ensures var r := f.items[x].ref; Known(f.worlds, r) && r.index in f.worlds[r.ring].live
    ensures FlatOk(OneDetached(f, x)) && AllGrow(f.worlds, OneDetached(f, x).worlds)
  {
    var r, t := f.items[x].ref, OneDetached(f, x);
    assert r.index in Attached(f.items, r.ring);
    KnownLater(f.worlds, t.worlds, f.items, None, f.done);
    forall g | 0 <= g < |t.worlds|
      ensures t.worlds[g].live == Attached(t.items, g) + InHand(None, g)
    {
      AttachedWithout(f.items, x, g);
    }
    hide Attached;
  }

  lemma OneDetachedKeeps(f: Flat, x: Entry)
    requires Real(f.worlds) && x in f.items && f.items[x].Sample? && f.items[x].ref.ring < |f.worlds|
    ensures OneDetached(f, x).hand == f.hand
  {
  }

  lemma DetachedOk(f: Flat)
    requires FlatOk(f) && f.hand == None
    ensures FlatOk(AllDetached(f)) && AllGrow(f.worlds, AllDetached(f).worlds)
  {
    var t := AllDetached(f);
    assert AllGrow(f.worlds, t.worlds);
    KnownLater(f.worlds, t.worlds, f.items, None, f.done);
    assert t.items.Keys == f.items.Keys;
    assert forall g :: Attached(t.items, g) == {};
  }

  /** `t` is `f` after detaching all events but those still to do. */
  ghost predicate PartlyDetached(f: Flat, t: Flat, todo: set<Entry>) {
    && t == f.(worlds := t.worlds, items := t.items) && |t.worlds| == |f.worlds| && t.items.Keys == f.items.Keys
    && (forall g :: 0 <= g < |f.worlds| ==> t.worlds[g] == f.worlds[g].(live := t.worlds[g].live))
    && (forall x :: x in f.items ==> t.items[x] == if x in todo then f.items[x] else Unattached(f.items[x]))
  }

  lemma StartDetaching(f: Flat)
    ensures PartlyDetached(f, f, f.items.Keys)
  {
  }

  lemma DetachedNext(f: Flat, t: Flat, todo: set<Entry>, x: Entry)
    requires PartlyDetached(f, t, todo) && FlatOk(t) && x in todo && x in t.items
    ensures if t.items[x].Sample? && t.items[x].attached
      then t.items[x].ref.ring < |t.worlds| && PartlyDetached(f, OneDetached(t, x), todo - {x})
      else PartlyDetached(f, t, todo - {x})
  {
    hide Attached, Unshared, Numbered, InUse;
  }

  lemma DetachedLast(f: Flat, t: Flat)
    requires PartlyDetached(f, t, {}) && FlatOk(t) && t.hand == None
    ensures t == AllDetached(f) && forall g :: 0 <= g < |t.worlds| ==> t.worlds[g].live == {}
  {
    hide Unshared, Numbered;
    assert forall g :: Attached(t.items, g) == {};
    assert t.items == AllDetached(f).items;
    forall g | 0 <= g < |t.worlds|
      ensures t.worlds[g] == AllDetached(f).worlds[g]
    {
      assert t.worlds[g].live == {};
    }
  }

  /** After detaching no record is in use, and every reader is where it was. */
  lemma DetachedReader(f: Flat, g: nat)
    requires g < |f.worlds|
    ensures var t := AllDetached(f); |t.worlds| == |f.worlds| && t.worlds[g].live == {} && ReadPos(t.worlds[g]) == ReadPos(f.worlds[g])
  {
  }

  /** Detaching changes no view. */
  lemma DetachedViews(f: Flat, format: S.Format)
    requires FlatOk(f) && f.hand == None
    ensures var t := AllDetached(f); forall x :: x in f.items ==>
      x in t.items && ViewOfItem(t.worlds, t.items[x], format) == ViewOfItem(f.worlds, f.items[x], format)
  {
    DetachedOk(f);
    var t := AllDetached(f);
    forall x | x in f.items
      ensures ViewOfItem(t.worlds, t.items[x], format) == ViewOfItem(f.worlds, f.items[x], format)
    {
      ViewStays(f.worlds, t.worlds, f.items[x], format);
    }
  }

  // ------------------------------------------------------------ whole runs

  /** A step of the kernel in some ring, or of the reader. */
  datatype Act =
    | Kernel(ring: nat, step: Step)
    | Read(ring: nat, limit: nat, other: Option<nat>)
    | BeginRing(group: int)
    | EndRound
    | AbandonRound
    | DetachQueued
    | FinishOne(force: bool)

  ghost predicate MayRead(f: Flat, k: nat, limit: nat) {
    k < |f.worlds| && limit <= Head(f.worlds[k]) && f.s.current.Some? && f.s.next < U64_LIMIT - 1
  }

  /** One step of the flat queue; a step that is not enabled does nothing. */
  ghost function ActFlat(f: Flat, format: S.Format, act: Act): (r: Flat)
    requires FlatOk(f) && f.hand == None
  {
    match act
    case Kernel(k, step) => if k < |f.worlds| && (step.Write? || step.Publish?) then Stepped(f, k, step) else f
    case Read(k, limit, other) => if MayRead(f, k, limit) then EventRead(f, k, limit, other, format) else f
    case BeginRing(group) => if f.s.current.Some? && group < f.s.current.value then f else f.(s := f.s.(current := Some(group)))
    case EndRound => if f.s.round < USIZE_MAX then f.(s := f.s.(round := f.s.round + 1, current := None)) else f
    case AbandonRound => f.(s := f.s.(current := None))
    case DetachQueued => AllDetached(f)
    case FinishOne(force) => Finished(f, force)
  }

  lemma SameButEvents(f: Flat, events: seq<Event>)
    requires FlatOk(f)
    ensures FlatOk(f.(events := events))
  {
  }

  lemma ReadOk(f: Flat, k: nat, limit: nat, other: Option<nat>, format: S.Format)
    requires FlatOk(f) && f.hand == None && MayRead(f, k, limit)
    ensures var r := EventRead(f, k, limit, other, format); FlatOk(r) && r.hand == None && AllGrow(f.worlds, r.worlds)
  {
    SteppedGrows(f, k, ReadTo(limit));
    TookOk(f, k, limit);
    TookIsKnown(f, k, limit);
    var t := Took(f, k, limit);
    if t.hand.Some? {
      var fate := FateAt(t.worlds, t.hand.value, format, other);
      HandledOk(t, fate);
      HandledGrows(t, fate);
      GrowsOn(f.worlds, t.worlds, Handled(t, fate).worlds);
      SameButEvents(Handled(t, fate), f.events + [EventOf(fate)]);
      hide FlatOk, AllGrow, FateAt, Took, Handled;
    } else {
      SameButEvents(t, f.events + [if ReadOf(f.worlds[k], limit) == AtEnd then Ended else Rejected]);
      hide FlatOk, AllGrow, ReadOf;
    }
  }

  lemma ActOk(f: Flat, format: S.Format, act: Act)
    requires FlatOk(f) && f.hand == None
    ensures var r := ActFlat(f, format, act); FlatOk(r) && r.hand == None && AllGrow(f.worlds, r.worlds)
  {
    match act
    case Kernel(k, step) =>
      NothingGrows(f);
      if k < |f.worlds| && (step.Write? || step.Publish?) {
        KernelOk(f, k, step);
        SteppedGrows(f, k, step);
        hide FlatOk;
      }
    case Read(k, limit, other) =>
      NothingGrows(f);
      if MayRead(f, k, limit) {
        ReadOk(f, k, limit, other, format);
        hide FlatOk, EventRead;
      }
    case BeginRing(group) => NothingGrows(f);
    case EndRound => NothingGrows(f);
    case AbandonRound => NothingGrows(f);
    case DetachQueued => DetachedOk(f);
    case FinishOne(force) =>
      NothingGrows(f);
      if Releases(f.s, force) {
        TakenOutOk(f);
        GaveOk(TakenOut(f));
        GaveGrows(TakenOut(f));
        hide FlatOk, AllGrow;
      }
  }

  lemma ReadLogs(f: Flat, k: nat, limit: nat, other: Option<nat>, format: S.Format)
    requires FlatOk(f) && f.hand == None && MayRead(f, k, limit)
    ensures EventRead(f, k, limit, other, format).done == f.done
  {
    TookIsKnown(f, k, limit);
    hide FateAt, StepWorld, FlatOk;
  }

  /** Only reads and finished events are logged. */
  lemma ActLogs(f: Flat, format: S.Format, act: Act)
    requires FlatOk(f) && f.hand == None
    ensures var r := ActFlat(f, format, act);
      && (!act.Read? ==> r.events == f.events)
      && (act.Read? ==> r.events == f.events || MayRead(f, act.ring, act.limit))
      && (!act.FinishOne? || !Releases(f.s, act.force) ==> r.done == f.done)
      && (act.FinishOne? && Releases(f.s, act.force) ==> First(f.s.heap) in f.items && r.done == f.done + [f.items[First(f.s.heap)]])
  {
    match act
    case Kernel(k, step) =>
    case Read(k, limit, other) =>
      if MayRead(f, k, limit) {
        ReadLogs(f, k, limit, other, format);
        hide EventRead;
      }
    case BeginRing(group) =>
    case EndRound =>
    case AbandonRound =>
    case DetachQueued =>
    case FinishOne(force) =>
      hide Numbered, First, InUse, Unshared;
      if Releases(f.s, force) {
        TakenOutOk(f);
        GaveLogs(TakenOut(f));
        hide Gave;
      }
  }

  ghost function RunFlat(f: Flat, format: S.Format, schedule: seq<Act>): (r: Flat)
    requires FlatOk(f) && f.hand == None
    ensures FlatOk(r) && r.hand == None
  {
    if schedule == [] then f
    else
      var before := RunFlat(f, format, schedule[..|schedule| - 1]);
      ActOk(before, format, schedule[|schedule| - 1]);
      ActFlat(before, format, schedule[|schedule| - 1])
  }

  /** A ring to be opened: its size and the position it starts at. */
  datatype Shape = Shape(exponent: nat, committed: nat)

  ghost function StartFlat(shapes: seq<Shape>): (f: Flat)
    ensures FlatOk(f) && f.hand == None
  {
    Flat(seq(|shapes|, g requires 0 <= g < |shapes| => StartWorld(shapes[g].exponent, shapes[g].committed)), EMPTY, map[], None, [], [])
  }

  lemma NothingLiveAtStart(shapes: seq<Shape>)
    ensures var f := StartFlat(shapes); |f.worlds| == |shapes| && forall g :: 0 <= g < |shapes| ==>
      f.worlds[g] == StartWorld(shapes[g].exponent, shapes[g].committed) && f.worlds[g].live == {}
  {
  }
}
