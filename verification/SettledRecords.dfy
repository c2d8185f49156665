/** Which records of the rings become samples, whatever the schedule: the account of every
    record the flat queue receives, down to what a built record is finally seen as. */
module SettledRecords {
  import opened Bits
  import opened Ring
  import opened Sorter
  import opened FlatQueue
  import Recorder
  import S = SampleRecord
  import W = WireFormat

  ghost function ItemRefs(items: map<Entry, Item>): set<Ref> {
    set x | x in items && items[x].Sample? :: items[x].ref
  }

  ghost function DoneRefs(done: seq<Item>): set<Ref> {
    set i | 0 <= i < |done| && done[i].Sample? :: done[i].ref
  }

  /** Where a record lies as it is handled: at its place in the page-aligned ring, or in a
      word-aligned copy if it wraps. */
  ghost function AddressOf(worlds: seq<World>, r: Ref): nat
    requires Known(worlds, r)
  {
    var w := worlds[r.ring];
    if InPlace(w, r.index) then Start(w, r.index) % |w.memory| else 0
  }

  /** The decoder's view of a record that lies word-aligned and says it is a sample. */
  ghost function Decoded(worlds: seq<World>, r: Ref, format: S.Format): Option<S.Sample>
    requires Known(worlds, r)
  {
    var bytes, address := RecordOf(worlds, r), AddressOf(worlds, r);
    if address % 8 == 0 && S.IsSampleHeader(bytes) then S.Decode(bytes, address, format) else None
  }

  ghost predicate HasIds(sample: S.Sample) {
    sample.pid < 0x8000_0000 && 0 < sample.tid < 0x8000_0000
  }

  /** The record is a sample that can be attributed. */
  ghost predicate IsUsable(worlds: seq<World>, r: Ref, format: S.Format)
    requires Known(worlds, r)
  {
    var sample := Decoded(worlds, r, format); sample.Some? && HasIds(sample.value)
  }

  /** Of the records received, exactly the usable samples are queued or finished, each of
      them in one place and once. */
  ghost predicate Settled(f: Flat, format: S.Format) {
    && (forall r :: Known(f.worlds, r) ==> (IsUsable(f.worlds, r, format) <==> r in ItemRefs(f.items) + DoneRefs(f.done)))
    && ItemRefs(f.items) !! DoneRefs(f.done)
    && (forall i, j :: 0 <= i < j < |f.done| && f.done[i].Sample? && f.done[j].Sample? ==> f.done[i].ref != f.done[j].ref)
  }

  ghost predicate SameRecords(worlds: seq<World>, later: seq<World>) {
    AllGrow(worlds, later) && forall g :: 0 <= g < |worlds| ==> later[g].received == worlds[g].received
  }

  lemma KeptStays(worlds: seq<World>, later: seq<World>, r: Ref, format: S.Format)
    requires AllGrow(worlds, later) && Known(worlds, r)
    ensures Known(later, r) && (IsUsable(later, r, format) <==> IsUsable(worlds, r, format))
  {
    hide S.Decode, S.IsSampleHeader, HandleOf, RecordOf, AllGrow, AddressOf;
    RefStays(worlds, later, r);
    AddressIs(worlds, r);
    AddressIs(later, r);
  }

  lemma AddressIs(worlds: seq<World>, r: Ref)
    requires Known(worlds, r)
    ensures AddressOf(worlds, r) == BaseOf(HandleOf(worlds, r))
  {
    hide Start;
  }

  /** Nothing is settled anew where no record is received and none changes its place. */
  lemma SettledLater(f: Flat, t: Flat, format: S.Format)
    requires Settled(f, format) && SameRecords(f.worlds, t.worlds)
    requires ItemRefs(t.items) == ItemRefs(f.items) && t.done == f.done
    ensures Settled(t, format)
  {
    hide IsUsable, ItemRefs, DoneRefs;
    forall r | Known(t.worlds, r)
      ensures IsUsable(t.worlds, r, format) <==> r in ItemRefs(t.items) + DoneRefs(t.done)
    {
      assert Known(f.worlds, r);
      KeptStays(f.worlds, t.worlds, r, format);
    }
  }

  lemma RefsPush(items: map<Entry, Item>, x: Entry, item: Item)
    requires x !in items
    ensures ItemRefs(items[x := item]) == ItemRefs(items) + if item.Sample? then {item.ref} else {}
  {
    var more := items[x := item];
    forall r | r in ItemRefs(items)
      ensures r in ItemRefs(more)
    {
      var y :| y in items && items[y].Sample? && items[y].ref == r;
      assert more[y] == items[y];
    }
    assert more[x] == item;
  }

  lemma DonePush(done: seq<Item>, item: Item)
    ensures DoneRefs(done + [item]) == DoneRefs(done) + if item.Sample? then {item.ref} else {}
  {
    var more := done + [item];
    forall r | r in DoneRefs(done)
      ensures r in DoneRefs(more)
    {
      var i :| 0 <= i < |done| && done[i].Sample? && done[i].ref == r;
      assert more[i] == done[i];
    }
    assert more[|done|] == item;
  }

  lemma DetachedRefs(f: Flat)
    ensures ItemRefs(AllDetached(f).items) == ItemRefs(f.items)
  {
    var t := AllDetached(f);
    forall r | r in ItemRefs(f.items)
      ensures r in ItemRefs(t.items)
    {
      var x :| x in f.items && f.items[x].Sample? && f.items[x].ref == r;
      assert t.items[x].ref == r;
    }
  }

  /** A finished event leaves one place and enters the other. */
  lemma TakenOutSettled(f: Flat, format: S.Format)
    requires FlatOk(f) && f.hand == None && f.s.heap != {} && Settled(f, format)
    ensures First(f.s.heap) in f.items && Settled(TakenOut(f), format)
  {
    TakenOutIs(f);
    var x := First(f.s.heap);
    var item, rest := f.items[x], f.items - {x};
    RefsWithout(f.items, x);
    DonePush(f.done, item);
    InDone(f.done);
    hide IsUsable, ItemRefs, DoneRefs, First, FlatOk;
    var t := TakenOut(f);
    assert t.items == rest && t.done == f.done + [item] && t.worlds == f.worlds;
    hide TakenOut;
    assert ItemRefs(t.items) + DoneRefs(t.done) == ItemRefs(f.items) + DoneRefs(f.done);
  }

  lemma InDone(done: seq<Item>)
    ensures forall i :: 0 <= i < |done| && done[i].Sample? ==> done[i].ref in DoneRefs(done)
  {
  }

  lemma RefsWithout(items: map<Entry, Item>, x: Entry)
    requires x in items && Unshared(items, None)
    ensures var item := items[x]; var rest := ItemRefs(items - {x});
      && ItemRefs(items) == rest + (if item.Sample? then {item.ref} else {})
      && (item.Sample? ==> item.ref !in rest)
  {
    var rest := items - {x};
    assert rest[x := items[x]] == items;
    RefsPush(rest, x, items[x]);
  }

  lemma GaveSame(f: Flat)
    requires FlatOk(f)
    ensures SameRecords(f.worlds, Gave(f).worlds) && Gave(f).items == f.items && Gave(f).done == f.done
  {
    GaveGrows(f);
  }

  /** A record that is read is settled by its fate. */
  lemma ReadSettled(f: Flat, k: nat, limit: nat, other: Option<nat>, format: S.Format)
    requires FlatOk(f) && f.hand == None && MayRead(f, k, limit) && Settled(f, format)
    ensures Settled(EventRead(f, k, limit, other, format), format)
  {
    TookOk(f, k, limit);
    TookIsKnown(f, k, limit);
    SteppedGrows(f, k, ReadTo(limit));
    TookOne(f, k, limit);
    var t := Took(f, k, limit);
    hide FlatOk, Took;
    if t.hand == None {
      SettledLater(f, EventRead(f, k, limit, other, format), format);
    } else {
      var fate := FateAt(t.worlds, t.hand.value, format, other);
      KeepIsUsable(t.worlds, t.hand.value, format, other);
      hide FateAt;
      HandledSettled(f, t, fate, format);
      SettledLogged(Handled(t, fate), f.events + [EventOf(fate)], format);
    }
  }

  lemma SettledLogged(f: Flat, events: seq<Event>, format: S.Format)
    requires Settled(f, format)
    ensures Settled(f.(events := events), format)
  {
    hide IsUsable, ItemRefs, DoneRefs;
  }

  lemma KeepIsUsable(worlds: seq<World>, r: Ref, format: S.Format, other: Option<nat>)
    requires Known(worlds, r)
    ensures FateAt(worlds, r, format, other).Keep? <==> IsUsable(worlds, r, format)
  {
    AddressIs(worlds, r);
    hide S.Decode, HandleAt, S.IsSampleHeader, AddressOf;
  }

  /** A read receives one record at most, and it is the one in hand. */
  lemma TookOne(f: Flat, k: nat, limit: nat)
    requires FlatOk(f) && f.hand == None && k < |f.worlds|
    ensures var t := Took(f, k, limit);
      && t.items == f.items && t.done == f.done && t.s == f.s
      && (forall r :: Known(t.worlds, r) ==> Known(f.worlds, r) || t.hand == Some(r))
      && (t.hand.Some? ==> Known(t.worlds, t.hand.value) && !Known(f.worlds, t.hand.value))
      && (t.hand == None ==> forall g :: 0 <= g < |f.worlds| ==> t.worlds[g].received == f.worlds[g].received)
  {
    hide Split, UnreadIn;
  }

  lemma HandledSettled(f: Flat, t: Flat, fate: Fate, format: S.Format)
    requires Settled(f, format) && FlatOk(f) && FlatOk(t) && AllGrow(f.worlds, t.worlds) && t.items == f.items && t.done == f.done
    requires t.hand.Some? && Known(t.worlds, t.hand.value) && !Known(f.worlds, t.hand.value) && t.s.current.Some?
    requires forall r :: Known(t.worlds, r) ==> Known(f.worlds, r) || t.hand == Some(r)
    requires fate.Keep? <==> IsUsable(t.worlds, t.hand.value, format)
    ensures Settled(Handled(t, fate), format)
  {
    hide FlatOk, Handled, IsUsable, ItemRefs, DoneRefs, AllGrow, SameRecords;
    FlatIsReal(t);
    var n, h := t.hand.value, Handled(t, fate);
    hide Known, Real;
    RefsKnown(f);
    HandledRefs(t, fate);
    forall r | Known(h.worlds, r)
      ensures IsUsable(h.worlds, r, format) <==> r in ItemRefs(h.items) + DoneRefs(h.done)
    {
      KeptSame(t.worlds, h.worlds, r, format);
      if r != n {
        KeptStays(f.worlds, t.worlds, r, format);
      }
    }
  }

  lemma KeptSame(worlds: seq<World>, later: seq<World>, r: Ref, format: S.Format)
    requires SameRecords(worlds, later) && Known(later, r)
    ensures Known(worlds, r) && (IsUsable(later, r, format) <==> IsUsable(worlds, r, format))
  {
    hide IsUsable;
    KeptStays(worlds, later, r, format);
  }

  lemma RefsKnown(f: Flat)
    requires FlatOk(f)
    ensures forall r :: r in ItemRefs(f.items) + DoneRefs(f.done) ==> Known(f.worlds, r)
  {
    hide InUse, Unshared, Numbered;
    assert forall i :: 0 <= i < |f.done| ==> f.done[i] in f.done;
  }

  lemma HandledRefs(t: Flat, fate: Fate)
    requires FlatOk(t) && t.hand.Some? && t.s.current.Some?
    ensures var h := Handled(t, fate);
      && h.done == t.done && SameRecords(t.worlds, h.worlds)
      && ItemRefs(h.items) == ItemRefs(t.items) + if fate.Keep? then {t.hand.value} else {}
  {
    GaveSame(t);
    NothingGrows(t);
    match fate
    case Refuse =>
    case Skip =>
    case Keep(sample) =>
      QueuedOk(t, sample.time, Sample(t.hand.value, true));
      RefsPush(t.items, NewEntry(t.s, sample.time), Sample(t.hand.value, true));
    case Own(timestamp) =>
      GaveOk(t);
      GaveKeeps(t);
      QueuedOk(Gave(t), timestamp, Plain);
      RefsPush(t.items, NewEntry(t.s, timestamp), Plain);
  }

  lemma ActSettled(f: Flat, format: S.Format, act: Act)
    requires FlatOk(f) && f.hand == None && Settled(f, format)
    ensures Settled(ActFlat(f, format, act), format)
  {
    NothingGrows(f);
    match act
    case Kernel(k, step) =>
      if k < |f.worlds| && (step.Write? || step.Publish?) {
        SteppedGrows(f, k, step);
        KernelKeeps(f.worlds[k], step);
        SettledLater(f, Stepped(f, k, step), format);
      }
    case Read(k, limit, other) =>
      if MayRead(f, k, limit) {
        ReadSettled(f, k, limit, other, format);
      }
    case BeginRing(group) => SettledLater(f, ActFlat(f, format, act), format);
    case EndRound => SettledLater(f, ActFlat(f, format, act), format);
    case AbandonRound => SettledLater(f, ActFlat(f, format, act), format);
    case DetachQueued =>
      DetachedOk(f);
      DetachedRefs(f);
      SettledLater(f, AllDetached(f), format);
    case FinishOne(force) =>
      if Releases(f.s, force) {
        TakenOutSettled(f, format);
        TakenOutOk(f);
        GaveSame(TakenOut(f));
        SettledLater(TakenOut(f), Gave(TakenOut(f)), format);
      }
  }

  ghost predicate AllOk(worlds: seq<World>) {
    forall g :: 0 <= g < |worlds| ==> WorldOk(worlds[g])
  }

  lemma SteppedStaysOk(f: Flat, k: nat, step: Step)
    requires AllOk(f.worlds) && Real(f.worlds) && k < |f.worlds|
    ensures AllOk(Stepped(f, k, step).worlds)
  {
    WorldStaysOk(f.worlds[k], step);
    hide WorldOk, StepWorld;
  }

  lemma GaveStaysOk(f: Flat)
    requires FlatOk(f) && AllOk(f.worlds)
    ensures AllOk(Gave(f).worlds)
  {
    if f.hand.Some? {
      SteppedStaysOk(f, f.hand.value.ring, Release(f.hand.value.index));
    }
  }

  lemma ActStaysOk(f: Flat, format: S.Format, act: Act)
    requires FlatOk(f) && f.hand == None && AllOk(f.worlds)
    ensures AllOk(ActFlat(f, format, act).worlds)
  {
    match act
    case Kernel(k, step) =>
      if k < |f.worlds| {
        SteppedStaysOk(f, k, step);
        hide AllOk, FlatOk;
      }
    case Read(k, limit, other) =>
      if MayRead(f, k, limit) {
        TookOk(f, k, limit);
        TookIsKnown(f, k, limit);
        SteppedStaysOk(f, k, ReadTo(limit));
        GaveStaysOk(Took(f, k, limit));
        hide FlatOk, AllOk, FateAt, Gave, Stepped;
      }
    case BeginRing(group) =>
    case EndRound =>
    case AbandonRound =>
    case DetachQueued =>
    case FinishOne(force) =>
      if Releases(f.s, force) {
        TakenOutOk(f);
        GaveStaysOk(TakenOut(f));
        hide FlatOk, AllOk, Gave;
      }
  }

  lemma {:induction false} RunSettled(f: Flat, format: S.Format, schedule: seq<Act>)
    requires FlatOk(f) && f.hand == None && Settled(f, format) && Timed(f, format) && AllOk(f.worlds)
    ensures var end := RunFlat(f, format, schedule); Settled(end, format) && Timed(end, format) && AllOk(end.worlds)
  {
    hide ActFlat, Settled, Timed, AllOk, FlatOk;
    if schedule != [] {
      var init := schedule[..|schedule| - 1];
      RunSettled(f, format, init);
      ActSettled(RunFlat(f, format, init), format, schedule[|schedule| - 1]);
      ActTimed(RunFlat(f, format, init), format, schedule[|schedule| - 1]);
      ActStaysOk(RunFlat(f, format, init), format, schedule[|schedule| - 1]);
    }
  }

  // ----------------------------------------------------------- in their own time

  /** Every queued sample waits under the time it was taken at. */
  ghost predicate Timed(f: Flat, format: S.Format) {
    forall x :: x in f.items && f.items[x].Sample? ==> Known(f.worlds, f.items[x].ref) && TakenAt(f.worlds, f.items[x].ref, format) == Some(x.key)
  }

  ghost function TakenAt(worlds: seq<World>, r: Ref, format: S.Format): Option<int>
    requires Known(worlds, r)
  {
    var sample := Decoded(worlds, r, format);
    if sample.Some? then Some(sample.value.time) else None
  }

  lemma TimeStays(worlds: seq<World>, later: seq<World>, r: Ref, format: S.Format)
    requires AllGrow(worlds, later) && Known(worlds, r)
    ensures Known(later, r) && TakenAt(later, r, format) == TakenAt(worlds, r, format)
  {
    hide S.Decode, S.IsSampleHeader, HandleOf, RecordOf, AllGrow, AddressOf;
    RefStays(worlds, later, r);
    AddressIs(worlds, r);
    AddressIs(later, r);
  }

  /** Events that were queued before keep their time. */
  lemma TimedLater(f: Flat, t: Flat, format: S.Format)
    requires Timed(f, format) && AllGrow(f.worlds, t.worlds)
    requires forall x :: x in t.items && t.items[x].Sample? ==> x in f.items && f.items[x].Sample? && t.items[x].ref == f.items[x].ref
    ensures Timed(t, format)
  {
    hide TakenAt, AllGrow;
    forall x | x in t.items && t.items[x].Sample?
      ensures Known(t.worlds, t.items[x].ref) && TakenAt(t.worlds, t.items[x].ref, format) == Some(x.key)
    {
      TimeStays(f.worlds, t.worlds, f.items[x].ref, format);
    }
  }

  lemma KeptInTime(worlds: seq<World>, r: Ref, format: S.Format, other: Option<nat>)
    requires Known(worlds, r) && FateAt(worlds, r, format, other).Keep?
    ensures TakenAt(worlds, r, format) == Some(FateAt(worlds, r, format, other).sample.time)
  {
    AddressIs(worlds, r);
    hide S.Decode, HandleAt, S.IsSampleHeader, AddressOf, Recorder.Usable;
  }

  lemma ReadTimed(f: Flat, k: nat, limit: nat, other: Option<nat>, format: S.Format)
    requires FlatOk(f) && f.hand == None && MayRead(f, k, limit) && Timed(f, format)
    ensures Timed(EventRead(f, k, limit, other, format), format)
  {
    TookOk(f, k, limit);
    TookIsKnown(f, k, limit);
    SteppedGrows(f, k, ReadTo(limit));
    TookOne(f, k, limit);
    var t := Took(f, k, limit);
    TimedLater(f, t, format);
    if t.hand.Some? {
      var fate := FateAt(t.worlds, t.hand.value, format, other);
      if fate.Keep? {
        KeptInTime(t.worlds, t.hand.value, format, other);
      }
      hide FlatOk, Took, FateAt, TakenAt, AllGrow, Handled;
      HandledTimed(t, fate, format);
      TimedLogged(Handled(t, fate), f.events + [EventOf(fate)], format);
    }
  }

  lemma TimedLogged(f: Flat, events: seq<Event>, format: S.Format)
    requires Timed(f, format)
    ensures Timed(f.(events := events), format)
  {
    hide TakenAt;
  }

  lemma HandledTimed(t: Flat, fate: Fate, format: S.Format)
    requires FlatOk(t) && t.hand.Some? && Known(t.worlds, t.hand.value) && t.s.current.Some? && Timed(t, format)
    requires fate.Keep? ==> TakenAt(t.worlds, t.hand.value, format) == Some(fate.sample.time)
    ensures Timed(Handled(t, fate), format)
  {
    HandledGrows(t, fate);
    HandledKeeps(t, fate);
    hide FlatOk, TakenAt, AllGrow, Handled;
    if !fate.Keep? {
      TimedLater(t, Handled(t, fate), format);
    } else {
      var more := t.(items := t.items[NewEntry(t.s, fate.sample.time) := Sample(t.hand.value, true)]);
      assert Timed(more, format);
      TimedLater(more, Handled(t, fate), format);
    }
  }

  lemma ActTimed(f: Flat, format: S.Format, act: Act)
    requires FlatOk(f) && f.hand == None && Timed(f, format)
    ensures Timed(ActFlat(f, format, act), format)
  {
    ActOk(f, format, act);
    var r := ActFlat(f, format, act);
    if act.Read? && MayRead(f, act.ring, act.limit) {
      hide FlatOk, EventRead, AllGrow, Timed;
      ReadTimed(f, act.ring, act.limit, act.other, format);
    } else {
      ActKeepsItems(f, format, act);
      hide FlatOk, AllGrow, ActFlat;
      TimedLater(f, r, format);
    }
  }

  /** Only a read adds to the queue. */
  lemma ActKeepsItems(f: Flat, format: S.Format, act: Act)
    requires FlatOk(f) && f.hand == None && (act.Read? ==> !MayRead(f, act.ring, act.limit))
    ensures var r := ActFlat(f, format, act);
      forall x :: x in r.items && r.items[x].Sample? ==> x in f.items && f.items[x].Sample? && r.items[x].ref == f.items[x].ref
  {
    if act.FinishOne? && Releases(f.s, act.force) {
      TakenOutOk(f);
      GaveSame(TakenOut(f));
      hide Gave, SameRecords;
    }
  }

  lemma StartSettled(shapes: seq<Shape>, format: S.Format)
    ensures Settled(StartFlat(shapes), format) && Timed(StartFlat(shapes), format) && AllOk(StartFlat(shapes).worlds)
  {
    hide IsUsable;
    assert Join([]) == [];
    assert ItemRefs(map[]) == {} && DoneRefs([]) == {};
  }

  /** Over every schedule: a finished sample's record is a record of the stream its ring
      published; of all records received exactly the samples that decode with a process and
      a running thread are queued or finished, each once; and they wait under their time. */
  lemma FinishedAsPublished(shapes: seq<Shape>, format: S.Format, schedule: seq<Act>)
    ensures var end := RunFlat(StartFlat(shapes), format, schedule);
      && (forall d :: d in end.done && d.Sample? ==>
            && Known(end.worlds, d.ref) && IsUsable(end.worlds, d.ref, format)
            && var w := end.worlds[d.ref.ring]; var records := Split(w.published, |w.memory|).records;
               d.ref.index < |records| && RecordOf(end.worlds, d.ref) == records[d.ref.index])
      && Settled(end, format) && Timed(end, format)
  {
    var end := RunFlat(StartFlat(shapes), format, schedule);
    StartSettled(shapes, format);
    RunSettled(StartFlat(shapes), format, schedule);
    hide RunFlat, IsUsable, Split, Settled, Timed, AllOk, FlatOk;
    forall d | d in end.done && d.Sample?
      ensures Known(end.worlds, d.ref) && IsUsable(end.worlds, d.ref, format)
      ensures var w := end.worlds[d.ref.ring]; var records := Split(w.published, |w.memory|).records;
        d.ref.index < |records| && RecordOf(end.worlds, d.ref) == records[d.ref.index]
    {
      FinishedOne(end, format, d);
    }
  }

  lemma FinishedOne(end: Flat, format: S.Format, d: Item)
    requires FlatOk(end) && AllOk(end.worlds) && Settled(end, format) && d in end.done && d.Sample?
    ensures Known(end.worlds, d.ref) && IsUsable(end.worlds, d.ref, format)
    ensures var w := end.worlds[d.ref.ring]; var records := Split(w.published, |w.memory|).records;
      d.ref.index < |records| && RecordOf(end.worlds, d.ref) == records[d.ref.index]
  {
    InDone(end.done);
    hide IsUsable, Split, IsRecord, Join, DoneRefs, ItemRefs, InUse, Unshared;
    var i :| 0 <= i < |end.done| && end.done[i] == d;
    var w := end.worlds[d.ref.ring];
    assert WorldOk(w);
    SplitPrefix(w.received, w.published, |w.memory|);
  }

  // ------------------------------------------------------------- what one read does

  /** What a read reports and queues: the end or a refusal if no record is framed; for an
      aligned sample record, a refusal if it does not decode, a sample under its time if its
      ids are usable, and nothing otherwise; for any other record what its parser says. */
  lemma ReadOutcome(f: Flat, k: nat, limit: nat, other: Option<nat>, format: S.Format)
    requires FlatOk(f) && f.hand == None && MayRead(f, k, limit)
    ensures var w := f.worlds[k]; var framing := Split(UnreadIn(w, limit), |w.memory|);
      var t := EventRead(f, k, limit, other, format); var ref := Ref(k, |w.received|);
      if limit < ReadPos(w) then t == f.(events := f.events + [Rejected])
      else if framing.records == [] then t == f.(events := f.events + [if framing.error == None then Ended else Rejected])
      else
        && Known(t.worlds, ref) && t.worlds[k].received == w.received + [framing.records[0]]
        && var bytes := framing.records[0]; var address := AddressOf(t.worlds, ref);
           if address % 8 == 0 && S.IsSampleHeader(bytes) then
             match S.Decode(bytes, address, format)
             case None => Reports(f, t, Rejected)
             case Some(sample) =>
               if sample.pid < 0x8000_0000 && 0 < sample.tid < 0x8000_0000
               then Queues(f, t, sample.time, Sample(ref, true)) else Reports(f, t, Skipped)
           else
             match other
             case None => Reports(f, t, Rejected)
             case Some(timestamp) => Queues(f, t, timestamp, Plain)
  {
    var w, t := f.worlds[k], Took(f, k, limit);
    var framing := Split(UnreadIn(w, limit), |w.memory|);
    FlatIsReal(f);
    TookIsKnown(f, k, limit);
    TookIs(f, k, limit);
    if framing.records != [] {
      var ref := Ref(k, |w.received|);
      var fate := FateAt(t.worlds, ref, format, other);
      AddressIs(t.worlds, ref);
      HandledKeeps(t, fate);
      HandledAddress(t, fate, ref);
      hide FlatOk, Took, AddressOf, S.Decode, S.IsSampleHeader, Split, HandleAt, Handled, ReadPos, UnreadIn;
    }
  }

  ghost predicate Reports(f: Flat, t: Flat, event: Event) {
    t.events == f.events + [event] && t.items == f.items && t.s == f.s && t.done == f.done
  }

  ghost predicate Queues(f: Flat, t: Flat, time: nat, item: Item)
    requires f.s.current.Some?
  {
    && t.events == f.events + [QueuedAt(time)] && t.done == f.done
    && t.items == f.items[Entry(f.s.current.value, f.s.round, time, f.s.next) := item]
  }

  lemma TookIs(f: Flat, k: nat, limit: nat)
    requires FlatOk(f) && f.hand == None && MayRead(f, k, limit)
    ensures var w := f.worlds[k]; var records := Split(UnreadIn(w, limit), |w.memory|).records; var t := Took(f, k, limit);
      && t == f.(worlds := t.worlds, hand := t.hand)
      && (limit < ReadPos(w) ==> records == [])
      && (records == [] ==> t == f)
      && (records != [] ==> t.hand == Some(Ref(k, |w.received|)) && t.worlds[k].received == w.received + [records[0]])
  {
    hide Start, IsRecord;
    assert f.worlds[k := f.worlds[k]] == f.worlds;
  }

  lemma HandledKeeps(t: Flat, fate: Fate)
    requires Real(t.worlds) && t.hand.Some? && t.hand.value.ring < |t.worlds| && t.s.current.Some?
    ensures var h := Handled(t, fate);
      && h.events == t.events && h.done == t.done && |h.worlds| == |t.worlds|
      && h.worlds[t.hand.value.ring].received == t.worlds[t.hand.value.ring].received
      && match fate
         case Refuse => h.items == t.items && h.s == t.s
         case Skip => h.items == t.items && h.s == t.s
         case Keep(sample) => h.items == t.items[NewEntry(t.s, sample.time) := Sample(t.hand.value, true)]
         case Own(timestamp) => h.items == t.items[NewEntry(t.s, timestamp) := Plain]
  {
  }

  lemma HandledAddress(t: Flat, fate: Fate, r: Ref)
    requires Real(t.worlds) && t.hand.Some? && t.hand.value.ring < |t.worlds| && t.s.current.Some? && Known(t.worlds, r)
    ensures var h := Handled(t, fate); Known(h.worlds, r) && AddressOf(h.worlds, r) == AddressOf(t.worlds, r)
  {
    hide Join;
  }

  // ------------------------------------------------------------- from built records

  /** If each ring publishes records built for the format, with registers the decoder knows,
      then after any schedule the samples queued or finished are exactly the received ones
      that lie aligned, whose dump is whole words, and that have a process and a running
      thread; and each is seen with the very chain, registers and stack it was built from. */
  lemma FinishedAsBuilt(shapes: seq<Shape>, format: S.Format, schedule: seq<Act>, contents: seq<seq<S.Contents>>, r: Ref)
    requires var end := RunFlat(StartFlat(shapes), format, schedule);
      && Known(end.worlds, r) && |contents| == |end.worlds|
      && var w := end.worlds[r.ring];
         W.FitsRing(contents[r.ring], |w.memory|) && w.published == Join(W.Built(contents[r.ring]))
    requires forall c :: c in contents[r.ring] ==> S.Fits(c, format) && S.RegsKnown(c.regs)
    ensures var end := RunFlat(StartFlat(shapes), format, schedule);
      && r.index < |contents[r.ring]|
      && var c := contents[r.ring][r.index];
         && S.Fits(c, format)
         && (r in ItemRefs(end.items) + DoneRefs(end.done) <==>
               AddressOf(end.worlds, r) % 8 == 0 && S.WholeWords(c.stack) && c.pid < 0x8000_0000 && 0 < c.tid < 0x8000_0000)
         && (r in ItemRefs(end.items) + DoneRefs(end.done) ==> ViewAt(end.worlds, r, format) == Some(W.ContentsView(c)))
  {
    var end := RunFlat(StartFlat(shapes), format, schedule);
    StartSettled(shapes, format);
    RunSettled(StartFlat(shapes), format, schedule);
    hide RunFlat, StartFlat;
    ReceivedIsBuilt(end, r, contents[r.ring]);
    hide FlatOk, AllOk, Timed, IsUsable, ItemRefs, DoneRefs, W.FitsRing, W.Built;
    var c := contents[r.ring][r.index];
    assert c in contents[r.ring];
    UsableAsBuilt(end.worlds, r, format, c);
  }

  lemma ReceivedIsBuilt(end: Flat, r: Ref, contents: seq<S.Contents>)
    requires AllOk(end.worlds) && Known(end.worlds, r)
    requires var w := end.worlds[r.ring]; W.FitsRing(contents, |w.memory|) && w.published == Join(W.Built(contents))
    ensures r.index < |contents| && RecordOf(end.worlds, r) == S.Record(contents[r.index])
  {
    hide Split, Join, IsRecord, W.FitsRing, S.Record;
    var w := end.worlds[r.ring];
    assert WorldOk(w);
    SplitPrefix(w.received, w.published, |w.memory|);
    W.FramesBuilt(contents, |w.memory|);
  }

  lemma UsableAsBuilt(worlds: seq<World>, r: Ref, format: S.Format, c: S.Contents)
    requires Known(worlds, r) && RecordOf(worlds, r) == S.Record(c) && S.Fits(c, format) && S.RegsKnown(c.regs)
    ensures IsUsable(worlds, r, format) <==>
      AddressOf(worlds, r) % 8 == 0 && S.WholeWords(c.stack) && c.pid < 0x8000_0000 && 0 < c.tid < 0x8000_0000
    ensures IsUsable(worlds, r, format) ==> ViewAt(worlds, r, format) == Some(W.ContentsView(c))
  {
    AddressIs(worlds, r);
    var address := AddressOf(worlds, r);
    hide AddressOf, HandleOf, RecordOf;
    if address % 8 == 0 {
      S.RoundTrip(c, format, address);
      if S.WholeWords(c.stack) {
        W.SeenAsBuilt(c, format, address);
        HeaderOfDecoded(S.Record(c), address, format);
      }
      hide S.Decode, S.IsSampleHeader, S.Record, S.Fits, S.ViewOf, S.RegsKnown, S.WholeWords, W.ContentsView, S.Shows;
    }
  }

  lemma HeaderOfDecoded(bytes: seq<Byte>, base: nat, format: S.Format)
    requires S.Decode(bytes, base, format).Some?
    ensures S.IsSampleHeader(bytes)
  {
    hide S.IsSampleHeader;
  }
}
