/** The sink hands events on in timestamp order, as long as the rings deliver them as
    the kernel does. */
module SinkOrder {
  import opened Bits
  import opened Sorter
  import opened Recorder
  import opened CallEffects

  // ------------------------------------------------- what the rings may deliver

  /** What has been delivered so far, by every ring and from each: the greatest timestamp,
      and for each ring the greatest one when its last complete read started (or when it
      was opened). */
  datatype Feed = Feed(rings: set<int>, high: nat, last: map<int, nat>, floor: map<int, nat>)

  const NO_FEED := Feed({}, 0, map[], map[])

  function At(m: map<int, nat>, g: int): (n: nat) {
    if g in m then m[g] else 0
  }

  function Delivered(f: Feed, g: int, key: nat): (r: Feed) {
    f.(high := Max(f.high, key), last := f.last[g := key])
  }

  /** Samples that are skipped, such as those without a time, do not take part. */
  function EventFed(f: Feed, g: int, e: Event): (r: Feed) {
    if PreparedOf(e).Some? then Delivered(f, g, KeyOf(e)) else f
  }

  function DeliveredAll(f: Feed, g: int, events: seq<Event>): (r: Feed) {
    if events == [] then f
    else EventFed(DeliveredAll(f, g, events[..|events| - 1]), g, events[|events| - 1])
  }

  predicate InTime(f: Feed, g: int, e: Event) {
    PreparedOf(e).Some? ==> At(f.last, g) <= KeyOf(e) && At(f.floor, g) <= KeyOf(e)
  }

  /** A ring's timestamps never decrease, and it yields nothing older than an event that was
      delivered before its last complete read started. */
  predicate Timely(f: Feed, g: int, events: seq<Event>) {
    events == [] ||
    (var init := events[..|events| - 1];
     Timely(f, g, init) && InTime(DeliveredAll(f, g, init), g, events[|events| - 1]))
  }

  /** The feed after reading one ring to its end. */
  function RingFed(f: Feed, read: RingRead): (r: Feed) {
    var fed := DeliveredAll(f, read.fd, read.events);
    if read.ok then fed.(floor := fed.floor[read.fd := f.high]) else fed
  }

  function PassFed(f: Feed, batch: seq<RingRead>): (r: Feed)
    decreases |batch|
  {
    if batch == [] then f
    else if batch[0].ok then PassFed(RingFed(f, batch[0]), batch[1..])
    else RingFed(f, batch[0])
  }

  predicate PassTimely(f: Feed, batch: seq<RingRead>)
    decreases |batch|
  {
    batch == [] ||
    (Timely(f, batch[0].fd, batch[0].events) && (batch[0].ok ==> PassTimely(RingFed(f, batch[0]), batch[1..])))
  }

  // ------------------------------------------------------- the sink as a sorter run

  /** A run that some admissible operations lead to. */
  ghost predicate Reachable(r: Run) {
    Inv(START) && exists ops :: Admissible(START, ops) && Exec(START, ops) == r
  }

  lemma {:induction false} AppendOp(r: Run, ops: seq<Op>, op: Op)
    requires Inv(r) && Admissible(r, ops) && Enabled(Exec(r, ops), op)
    ensures Admissible(r, ops + [op])
    ensures Numbered(Exec(r, ops).s.heap) && Exec(r, ops + [op]) == Next(Exec(r, ops), op)
    decreases |ops|
  {
    if ops == [] {
      assert ops + [op] == [op] && [op][1..] == [];
      StepKeeps(r, op);
    } else {
      StepKeeps(r, ops[0]);
      hide Inv, Enabled;
      AppendOp(Next(r, ops[0]), ops[1..], op);
      assert (ops + [op])[0] == ops[0] && (ops + [op])[1..] == ops[1..] + [op];
    }
  }

  lemma ReachNext(r: Run, op: Op)
    requires Reachable(r) && Inv(r) && Numbered(r.s.heap) && Feasible(r, op) && Enabled(r, op)
    ensures Reachable(Next(r, op)) && Inv(Next(r, op))
  {
    hide Inv, Enabled, Feasible, Admissible, Exec, Numbered, Next;
    StepKeeps(r, op);
    var ops :| Admissible(START, ops) && Exec(START, ops) == r;
    AppendOp(START, ops, op);
  }

  /** Everything queued was delivered: its timestamp is within what the feed says. */
  ghost predicate Fed(r: Run, f: Feed) {
    && r.rings == f.rings && r.rings <= r.mark.Keys
    && (forall x :: x in r.queued ==> x.key <= f.high && x.key <= At(f.last, x.group))
    && (forall x, g :: x in r.queued && g in r.rings && x.sequence < r.mark[g] ==> x.key <= At(f.floor, g))
  }

  /** What the release rule handed on. */
  ghost function Unforced(log: seq<Handed>): seq<Entry> {
    if log == [] then []
    else
      var last := log[|log| - 1];
      Unforced(log[..|log| - 1]) + if last.forced then [] else [last.entry]
  }

  lemma {:induction false} UnforcedHas(log: seq<Handed>, h: Handed)
    requires h in log && !h.forced
    ensures h.entry in Unforced(log)
  {
    var init, last := log[..|log| - 1], log[|log| - 1];
    if h != last {
      UnforcedHas(init, h);
    }
  }

  /** An event was in its turn before `y`: it sorts before it, or it was forced out before `y`
      was queued. */
  predicate InTurn(h: Handed, y: Entry) {
    Less(h.entry, y) || (h.forced && h.before <= y.sequence)
  }

  /** Everything taken out was in its turn before what was taken out later and before what
      still waits, and every event that was queued is in one of these places. */
  ghost predicate LogOk(log: seq<Handed>, waiting: set<Entry>, next: nat) {
    && (forall i, j :: 0 <= i < j < |log| ==> InTurn(log[i], log[j].entry))
    && (forall h, y :: h in log && y in waiting ==> InTurn(h, y))
    && (forall h :: h in log ==> h.before <= next)
    && |log| + |waiting| == next
  }

  ghost predicate LogInOrder(s: Sink) {
    LogOk(s.handed, s.heap.Keys, s.next)
  }

  /** The sink does what the run does. */
  ghost predicate Follows(s: Sink, r: Run, f: Feed) {
    Reachable(r) && Inv(r) && r.s == SorterOf(s) && r.popped == Unforced(s.handed) && Fed(r, f) && KeysMatch(s) && LogInOrder(s)
  }

  /** Only what is queued and what was handed on differs. */
  ghost predicate SameRound(r: Run, r': Run) {
    && r'.rings == r.rings && r'.complete == r.complete && r'.mark == r.mark && r'.start == r.start && r'.queued == r.queued
    && r'.s.current == r.s.current && r'.s.round == r.s.round && r'.s.next == r.s.next
  }

  lemma InvNumbered(r: Run)
    requires Inv(r)
    ensures Numbered(r.s.heap)
  {
  }

  /** Taking an event is one operation of the sorter. */
  lemma TakeIs(s: Sink, r: Run, force: bool)
    requires r.s == SorterOf(s) && r.popped == Unforced(s.handed) && Released(s, force)
    ensures var t := Taken(s, force); var r' := Next(r, if force then ForcePop else Pop);
      r'.s == SorterOf(t) && r'.popped == Unforced(t.handed) && SameRound(r, r')
  {
    hide First;
    var t := Taken(s, force);
    assert t.handed[..|t.handed| - 1] == s.handed;
    assert SorterOf(Taken(s, force)).heap == s.heap.Keys - {FirstOf(s)};
  }

  lemma TakenIs(s: Sink, force: bool)
    requires Released(s, force)
    ensures var x := FirstOf(s); var t := TakenAndFinished(s, force);
      && t.heap == s.heap - {x} && t.handed == s.handed + [Handed(x, force, s.next)] && t.next == s.next
      && IsFirst(s.heap.Keys, x)
  {
    hide Ready, Fails;
  }

  /** The event taken is first in the queue, so everything left comes after it. */
  lemma TakenLog(s: Sink, force: bool)
    requires LogInOrder(s) && Released(s, force)
    ensures LogInOrder(TakenAndFinished(s, force))
  {
    TakenIs(s, force);
    hide TakenAndFinished, FirstOf, Released, LogOk;
    LogTaken(s.handed, s.heap.Keys, s.next, FirstOf(s), force);
    assert (s.heap - {FirstOf(s)}).Keys == s.heap.Keys - {FirstOf(s)};
  }

  lemma LogTaken(log: seq<Handed>, waiting: set<Entry>, next: nat, x: Entry, force: bool)
    requires LogOk(log, waiting, next) && IsFirst(waiting, x)
    ensures LogOk(log + [Handed(x, force, next)], waiting - {x}, next)
  {
    var more := log + [Handed(x, force, next)];
    forall i, j | 0 <= i < j < |more|
      ensures InTurn(more[i], more[j].entry)
    {
      assert more[i] == log[i] && log[i] in log;
    }
  }

  /** What the release rule handed on sorts before whatever is queued afterwards. */
  lemma PushedLog(s: Sink, t: Sink, y: Entry, p: Prepared)
    requires LogInOrder(s) && forall x :: x in Unforced(s.handed) ==> Less(x, y)
    requires y !in s.heap && y.sequence == s.next
    requires t.heap == s.heap[y := p] && t.handed == s.handed && t.next == s.next + 1
    ensures LogInOrder(t)
  {
    forall h | h in s.handed
      ensures InTurn(h, y)
    {
      if !h.forced {
        UnforcedHas(s.handed, h);
      }
    }
    assert t.heap.Keys == s.heap.Keys + {y};
  }

  lemma SameLog(s: Sink, t: Sink)
    requires LogInOrder(s) && t.heap.Keys == s.heap.Keys && t.handed == s.handed && t.next == s.next
    ensures LogInOrder(t)
  {
  }

  lemma SameFeed(r: Run, r': Run, f: Feed)
    requires Fed(r, f) && r'.rings == r.rings && r'.mark == r.mark && r'.queued == r.queued
    ensures Fed(r', f)
  {
  }

  lemma TakeFollows(s: Sink, r: Run, f: Feed, force: bool) returns (r': Run)
    requires Follows(s, r, f) && Released(s, force)
    ensures Follows(TakenAndFinished(s, force), r', f) && SameRound(r, r')
  {
    hide Inv, First, Reachable, Fed, Ready, LogInOrder, Unforced;
    var op := if force then ForcePop else Pop;
    TakeIs(s, r, force);
    TakenLog(s, force);
    ReachNext(r, op);
    r' := Next(r, op);
    hide Next;
    SameFeed(r, r', f);
  }

  lemma {:induction false} DrainFollows(s: Sink, r: Run, f: Feed, force: bool) returns (r': Run)
    requires Follows(s, r, f)
    ensures Follows(Drained(s, force), r', f) && SameRound(r, r')
    decreases |s.heap|
  {
    hide Follows, Drained, Released, TakenAndFinished;
    DrainedStep(s, force);
    r' := r;
    if Released(s, force) {
      r' := TakeFollows(s, r, f, force);
      if TakenAndFinished(s, force).ok {
        r' := DrainFollows(TakenAndFinished(s, force), r', f, force);
      }
    }
  }

  lemma FedMore(r: Run, f: Feed, g: int, key: nat)
    requires Fed(r, f) && At(f.last, g) <= key
    ensures Fed(r, Delivered(f, g, key))
  {
  }

  /** A timely event may be queued. */
  lemma ReadOneFollows(s: Sink, r: Run, f: Feed, g: int, e: Event) returns (r': Run)
    requires Follows(s, r, f) && Reading(r) && r.s.current == Some(g) && g in r.rings
    requires InTime(f, g, e)
    ensures Follows(ReadOne(s, e), r', EventFed(f, g, e))
    ensures r'.rings == r.rings && r'.complete == r.complete && r'.mark == r.mark && r'.start == r.start
    ensures r'.s.current == r.s.current && r'.s.round == r.s.round && r.s.next <= r'.s.next
    ensures forall x :: x in r'.queued ==> x in r.queued || r.s.next <= x.sequence
  {
    hide Inv, Reachable, Fed, KeysMatch, PreparedOf, CountedIn, Numbered, Visible, LogInOrder, Unforced, Order;
    var key := KeyOf(e);
    if PreparedOf(e).Some? {
      FedMore(r, f, g, key);
    }
    r' := r;
    if s.ok && PreparedOf(e).Some? {
      TimelyIsVisible(r, f, g, key);
      InvNumbered(r);
      MarksPassed(r);
      ReachNext(r, Push(key));
      r' := Next(r, Push(key));
      PushedFed(r, f, g, key);
      PushedKey(s, e);
      PoppedBefore(r');
      QueuedIsNumbered(r);
      HeapIsQueued(r);
      PushedLog(s, ReadOne(s, e), Entry(g, s.round, key, s.next), PreparedOf(e).value);
    } else {
      SameKeys(s, ReadOne(s, e));
      SameLog(s, ReadOne(s, e));
    }
  }

  lemma PoppedBefore(r: Run)
    requires Inv(r)
    ensures forall x, y :: x in r.popped && y in r.s.heap ==> Less(x, y)
  {
  }

  lemma HeapIsQueued(r: Run)
    requires Inv(r)
    ensures r.s.heap <= r.queued
  {
  }

  lemma SameKeys(s: Sink, t: Sink)
    requires KeysMatch(s) && t.heap == s.heap
    ensures KeysMatch(t)
  {
  }

  lemma PushedKey(s: Sink, e: Event)
    requires KeysMatch(s) && s.ok && PreparedOf(e).Some? && s.current.Some?
    ensures KeysMatch(ReadOne(s, e))
    ensures SorterOf(ReadOne(s, e)) == Queue(SorterOf(s), KeyOf(e)) && ReadOne(s, e).handed == s.handed
  {
    assert PreparedOf(e).value.timestamp == KeyOf(e);
    assert SorterOf(ReadOne(s, e)).heap == s.heap.Keys + {Entry(s.current.value, s.round, KeyOf(e), s.next)};
  }

  lemma TimelyIsVisible(r: Run, f: Feed, g: int, key: nat)
    requires Fed(r, f) && g in r.rings && At(f.last, g) <= key && At(f.floor, g) <= key
    ensures Visible(r, g, key)
  {
  }

  lemma PushedFed(r: Run, f: Feed, g: int, key: nat)
    requires Fed(r, f) && At(f.last, g) <= key && r.s.current == Some(g)
    requires forall h :: h in r.rings ==> h in r.mark && r.mark[h] <= r.s.next
    ensures Fed(r.(s := Queue(r.s, key), queued := r.queued + {Entry(g, r.s.round, key, r.s.next)}), Delivered(f, g, key))
  {
  }

  lemma MarksPassed(r: Run)
    requires Inv(r)
    ensures forall g :: g in r.rings ==> g in r.mark && r.mark[g] <= r.s.next
  {
  }

  lemma {:induction false} ReadAllFollows(s: Sink, r: Run, f: Feed, g: int, events: seq<Event>) returns (r': Run)
    requires Follows(s, r, f) && Reading(r) && r.s.current == Some(g) && g in r.rings && Timely(f, g, events)
    ensures Follows(ReadAll(s, events), r', DeliveredAll(f, g, events))
    ensures r'.rings == r.rings && r'.complete == r.complete && r'.mark == r.mark && r'.start == r.start
    ensures r'.s.current == r.s.current && r'.s.round == r.s.round && r.s.next <= r'.s.next
    ensures forall x :: x in r'.queued ==> x in r.queued || r.s.next <= x.sequence
    ensures DeliveredAll(f, g, events).floor == f.floor && DeliveredAll(f, g, events).rings == f.rings
    decreases |events|
  {
    hide Follows, ReadOne, PreparedOf;
    r' := r;
    if events != [] {
      var init := events[..|events| - 1];
      r' := ReadAllFollows(s, r, f, g, init);
      r' := ReadOneFollows(ReadAll(s, init), r', DeliveredAll(f, g, init), g, events[|events| - 1]);
    }
  }

  // ------------------------------------------------------------------ passes

  ghost function Fds(batch: seq<RingRead>): (r: set<int>)
    ensures forall g :: g in r <==> exists i :: 0 <= i < |batch| && batch[i].fd == g
  {
    set i | 0 <= i < |batch| :: batch[i].fd
  }

  /** The rest of a pass: exactly the rings not read yet, in ascending order. */
  ghost predicate Remaining(r: Run, batch: seq<RingRead>) {
    && Ascending(batch) && Fds(batch) == r.rings - r.complete
    && (forall g, i :: g in r.complete && 0 <= i < |batch| ==> g < batch[i].fd)
    && (r.s.current.Some? ==> r.s.current.value in r.complete)
  }

  lemma BeginIsEnabled(r: Run, batch: seq<RingRead>)
    requires Remaining(r, batch) && batch != []
    ensures Feasible(r, Begin(batch[0].fd)) && Enabled(r, Begin(batch[0].fd)) && batch[0].fd in r.rings && batch[0].fd !in r.complete
  {
    var g := batch[0].fd;
    assert g in Fds(batch);
    assert forall i :: 0 <= i < |batch| ==> g <= batch[i].fd;
    forall h | h in r.rings && h < g
      ensures h in r.complete
    {
      assert h !in Fds(batch);
    }
  }

  /** Start reading a ring. */
  lemma BeginFollows(s: Sink, r: Run, f: Feed, batch: seq<RingRead>) returns (r': Run)
    requires Follows(s, r, f) && Remaining(r, batch) && batch != []
    ensures Follows(s.(current := Some(batch[0].fd)), r', f) && Reading(r') && r'.s.current == Some(batch[0].fd)
    ensures r'.rings == r.rings && r'.complete == r.complete && r'.queued == r.queued && r'.start == r.s.next == r'.s.next
    ensures r'.s.round == r.s.round && batch[0].fd in r.rings
  {
    hide Inv, Reachable, Remaining, Fed, LogInOrder;
    InvNumbered(r);
    BeginIsEnabled(r, batch);
    SameLog(s, s.(current := Some(batch[0].fd)));
    ReachNext(r, Begin(batch[0].fd));
    r' := Next(r, Begin(batch[0].fd));
    SameFeed(r, r', f);
  }

  /** The events queued before the read of a ring started are older than the feed was then. */
  ghost predicate StartFed(r: Run, high: nat) {
    forall x :: x in r.queued && x.sequence < r.start ==> x.key <= high
  }

  /** Read one ring of a pass. */
  lemma RingFollows(s: Sink, r: Run, f: Feed, batch: seq<RingRead>) returns (r': Run)
    requires Follows(s, r, f) && Remaining(r, batch) && batch != [] && Timely(f, batch[0].fd, batch[0].events)
    ensures Follows(RingBegun(s, batch[0]), r', DeliveredAll(f, batch[0].fd, batch[0].events))
    ensures Reading(r') && r'.s.current == Some(batch[0].fd) && batch[0].fd in r'.rings
    ensures r'.rings == r.rings && r'.complete == r.complete && r'.s.round == r.s.round && StartFed(r', f.high)
  {
    var fd := batch[0].fd;
    var r1 := BeginFollows(s, r, f, batch);
    var r2 := DrainFollows(s.(current := Some(fd)), r1, f, false);
    assert Reading(r2) && StartFed(r2, f.high);
    hide Follows, Drained, ReadAll, Remaining, Timely, DeliveredAll;
    r' := ReadAllFollows(Drained(s.(current := Some(fd)), false), r2, f, fd, batch[0].events);
  }

  /** A ring read to its end is complete for this round. */
  lemma FinishFollows(s: Sink, r: Run, f: Feed, g: int, high: nat) returns (r': Run)
    requires Follows(s, r, f) && Reading(r) && r.s.current == Some(g) && g in r.rings && StartFed(r, high)
    ensures Follows(s, r', f.(floor := f.floor[g := high]))
    ensures r'.rings == r.rings && r'.complete == r.complete + {g} && r'.s == r.s
  {
    InvNumbered(r);
    hide Inv, Reachable, LogInOrder, KeysMatch, Unforced, Fed, Numbered, StartFed;
    ReachNext(r, Finish);
    r' := Next(r, Finish);
    FinishedFed(r, f, g, high);
  }

  lemma FinishedFed(r: Run, f: Feed, g: int, high: nat)
    requires Fed(r, f) && g in r.rings && StartFed(r, high)
    ensures Fed(r.(complete := r.complete + {g}, mark := r.mark[g := r.start]), f.(floor := f.floor[g := high]))
  {
  }

  lemma RemainingNext(r: Run, r': Run, batch: seq<RingRead>)
    requires Remaining(r, batch) && batch != []
    requires r'.rings == r.rings && r'.complete == r.complete + {batch[0].fd} && r'.s.current == Some(batch[0].fd)
    ensures Remaining(r', batch[1..])
  {
    var rest := batch[1..];
    forall g
      ensures g in Fds(rest) <==> g in r'.rings - r'.complete
    {
      if g in Fds(rest) {
        var i :| 0 <= i < |rest| && rest[i].fd == g;
        assert batch[i + 1].fd == g && g in Fds(batch);
      }
      if g in r'.rings - r'.complete {
        assert g in Fds(batch);
        var i :| 0 <= i < |batch| && batch[i].fd == g;
        assert rest[i - 1].fd == g;
      }
    }
    assert Fds(rest) == r'.rings - r'.complete;
  }

  lemma DetachFollows(s: Sink, r: Run, f: Feed)
    requires Follows(s, r, f)
    ensures Follows(Detached(s), r, f)
  {
    hide Inv, Reachable, Fed, LogInOrder;
    assert Detached(s).heap.Keys == s.heap.Keys;
    SameLog(s, Detached(s));
  }

  lemma AbortFollows(s: Sink, r: Run, f: Feed) returns (r': Run)
    requires Follows(s, r, f)
    ensures Follows(s.(current := None), r', f) && Idle(r') && r'.rings == r.rings && r'.s.round == r.s.round
  {
    hide Inv, Reachable, Fed, LogInOrder;
    InvNumbered(r);
    SameLog(s, s.(current := None));
    ReachNext(r, Abort);
    r' := Next(r, Abort);
    SameFeed(r, r', f);
  }

  lemma AdvanceFollows(s: Sink, r: Run, f: Feed) returns (r': Run)
    requires Follows(s, r, f) && Remaining(r, []) && r.s.round + 1 < USIZE_MAX
    ensures Follows(s.(round := s.round + 1, current := None), r', f)
    ensures Idle(r') && r'.rings == r.rings && r'.s.round == r.s.round + 1
  {
    hide Inv, Reachable, Fed, Remaining, LogInOrder;
    InvNumbered(r);
    CompletesRound(r);
    SameLog(s, s.(round := s.round + 1, current := None));
    ReachNext(r, Advance);
    r' := Next(r, Advance);
    SameFeed(r, r', f);
  }

  lemma CompletesRound(r: Run)
    requires Inv(r) && Remaining(r, [])
    ensures r.complete == r.rings
  {
    assert r.rings - r.complete == Fds([]) == {};
    assert r.complete <= r.rings;
    forall g | g in r.rings
      ensures g in r.complete
    {
      assert g !in r.rings - r.complete;
    }
  }

  /** Between passes. */
  ghost predicate Idle(r: Run) {
    r.s.current == None && r.complete == {}
  }

  /** A pass over all rings is a stretch of the run. */
  lemma {:induction false} PassFollows(s: Sink, r: Run, f: Feed, batch: seq<RingRead>) returns (r': Run)
    requires Follows(s, r, f) && Remaining(r, batch) && PassTimely(f, batch) && s.round + 1 < USIZE_MAX
    ensures Follows(PassMade(s, batch), r', PassFed(f, batch))
    ensures Idle(r') && r'.rings == r.rings && r'.s.round <= r.s.round + 1
    decreases |batch|, 0
  {
    assert r.s.round == s.round;
    PassStep(s, batch);
    hide Drained, RingBegun, Timely, DeliveredAll, Remaining, PassMade;
    if batch == [] {
      var r1 := AdvanceFollows(s, r, f);
      hide Follows;
      r' := DrainFollows(s.(round := s.round + 1, current := None), r1, f, false);
    } else {
      var r1 := RingFollows(s, r, f, batch);
      var fed := DeliveredAll(f, batch[0].fd, batch[0].events);
      if !batch[0].ok {
        DetachFollows(RingBegun(s, batch[0]), r1, fed);
        r' := AbortFollows(Detached(RingBegun(s, batch[0])), r1, fed);
      } else {
        var r2 := FinishFollows(RingBegun(s, batch[0]), r1, fed, batch[0].fd, f.high);
        RemainingNext(r, r2, batch);
        hide Follows;
        r' := RestFollows(RingBegun(s, batch[0]), r2, RingFed(f, batch[0]), batch[1..]);
      }
    }
  }

  lemma {:induction false} RestFollows(s: Sink, r: Run, f: Feed, rest: seq<RingRead>) returns (r': Run)
    requires Follows(s, r, f) && Remaining(r, rest) && PassTimely(f, rest) && r.s.round + 1 < USIZE_MAX
    ensures Follows(PassMade(Drained(s, false), rest), r', PassFed(f, rest))
    ensures Idle(r') && r'.rings == r.rings && r'.s.round <= r.s.round + 1
    decreases |rest|, 1
  {
    var r1 := DrainFollows(s, r, f, false);
    assert Remaining(r1, rest) && Drained(s, false).round == r.s.round;
    hide Follows, Drained, PassMade, Remaining;
    r' := PassFollows(Drained(s, false), r1, f, rest);
  }

  // ------------------------------------------------------------------- calls

  /** Rings come and go between calls; a new one delivers nothing older than what was
      delivered before it was opened. */
  function Retargeted(f: Feed, rings: set<int>): (r: Feed) {
    f.(rings := rings, floor := f.floor + map g | g in rings - f.rings :: f.high)
  }

  lemma QueuedIsNumbered(r: Run)
    requires Inv(r)
    ensures forall x :: x in r.queued ==> x.sequence < r.s.next
  {
  }

  lemma RetargetedFed(r: Run, f: Feed, rings: set<int>)
    requires Fed(r, f) && forall x :: x in r.queued ==> x.sequence < r.s.next
    ensures Fed(r.(rings := rings, mark := r.mark + map g | g in rings - r.rings :: r.s.next), Retargeted(f, rings))
  {
  }

  lemma RetargetFollows(s: Sink, r: Run, f: Feed, rings: set<int>) returns (r': Run)
    requires Follows(s, r, f) && Idle(r)
    ensures Follows(s, r', Retargeted(f, rings)) && Idle(r') && r'.rings == rings && r'.s == r.s
  {
    hide Inv, Reachable, Fed, Retargeted, LogInOrder;
    InvNumbered(r);
    QueuedIsNumbered(r);
    ReachNext(r, SetRings(rings));
    r' := Next(r, SetRings(rings));
    RetargetedFed(r, f, rings);
  }

  function PassesFed(f: Feed, passes: seq<seq<RingRead>>): (r: Feed) {
    if passes == [] then f else PassFed(PassesFed(f, passes[..|passes| - 1]), passes[|passes| - 1])
  }

  predicate PassesTimely(f: Feed, passes: seq<seq<RingRead>>) {
    passes == [] ||
    (PassesTimely(f, passes[..|passes| - 1]) && PassTimely(PassesFed(f, passes[..|passes| - 1]), passes[|passes| - 1]))
  }

  /** Every pass reads exactly the rings that are open, in ascending order. */
  ghost predicate OverRings(passes: seq<seq<RingRead>>, rings: set<int>) {
    forall i :: 0 <= i < |passes| ==> Ascending(passes[i]) && Fds(passes[i]) == rings
  }

  lemma IdleRemains(r: Run, batch: seq<RingRead>)
    requires Idle(r) && Ascending(batch) && Fds(batch) == r.rings
    ensures Remaining(r, batch)
  {
    assert r.rings - {} == r.rings;
  }

  lemma {:induction false} PassesFollow(s: Sink, r: Run, f: Feed, passes: seq<seq<RingRead>>) returns (r': Run)
    requires Follows(s, r, f) && Idle(r) && OverRings(passes, r.rings) && PassesTimely(f, passes)
    requires r.s.round + |passes| < USIZE_MAX
    ensures Follows(AfterPasses(s, passes), r', PassesFed(f, passes))
    ensures Idle(r') && r'.rings == r.rings && r'.s.round <= r.s.round + |passes|
    decreases |passes|
  {
    r' := r;
    if passes != [] {
      var init, batch := passes[..|passes| - 1], passes[|passes| - 1];
      hide PassMade, PassFed, PassTimely, Fds;
      r' := PassesFollow(s, r, f, init);
      IdleRemains(r', batch);
      assert AfterPasses(s, init).round == r'.s.round;
      hide Follows, Idle, Remaining;
      r' := PassFollows(AfterPasses(s, init), r', PassesFed(f, init), batch);
    }
  }

  /** The rings open during a call are those of its first pass, and its second pass reads
      the same ones. */
  ghost predicate WellFormed(call: Call) {
    Ascending(call.first) && Ascending(call.second) && Fds(call.first) == Fds(call.second)
  }

  ghost function CallFed(s: Sink, f: Feed, call: Call): Feed {
    PassesFed(Retargeted(f, Fds(call.first)), PassesOf(s, call))
  }

  ghost predicate CallTimely(s: Sink, f: Feed, call: Call) {
    PassesTimely(Retargeted(f, Fds(call.first)), PassesOf(s, call))
  }

  lemma RestartFollows(s: Sink, r: Run, f: Feed)
    requires Follows(s, r, f)
    ensures Follows(Begun(s), r, f)
  {
    hide Inv, Reachable, Fed, LogInOrder;
    SameLog(s, Begun(s));
  }

  lemma CallFollows(s: Sink, r: Run, f: Feed, call: Call) returns (r': Run)
    requires Follows(s, r, f) && Idle(r) && WellFormed(call) && CallTimely(s, f, call) && r.s.round + 2 < USIZE_MAX
    ensures Follows(Consumed(s, call), r', CallFed(s, f, call))
    ensures Idle(r') && r'.s.round <= r.s.round + 2
  {
    var passes := PassesOf(s, call);
    assert OverRings(passes, Fds(call.first)) && 1 <= |passes| <= 2;
    RestartFollows(s, r, f);
    hide Follows, PassesOf, AfterPasses, Drained, PassesTimely, PassesFed, Retargeted, Fds, OverRings;
    var r1 := RetargetFollows(Begun(s), r, f, Fds(call.first));
    r' := PassesFollow(Begun(s), r1, Retargeted(f, Fds(call.first)), passes);
    var read := AfterPasses(Begun(s), passes);
    if AllComplete(passes) {
      DetachFollows(read, r', CallFed(s, f, call));
      if Forces(call, read.ok) {
        r' := DrainFollows(Detached(read), r', CallFed(s, f, call), true);
      }
    }
  }

  ghost function SessionFed(s: Sink, calls: seq<Call>): Feed {
    if calls == [] then NO_FEED
    else
      var init := calls[..|calls| - 1];
      CallFed(Served(s, init), SessionFed(s, init), calls[|calls| - 1])
  }

  /** Everything the rings deliver during the calls is timely. */
  ghost predicate SessionTimely(s: Sink, calls: seq<Call>) {
    calls == [] ||
    (var init := calls[..|calls| - 1];
     SessionTimely(s, init) && CallTimely(Served(s, init), SessionFed(s, init), calls[|calls| - 1]))
  }

  lemma NewFollows(kernelEnabled: bool)
    ensures Follows(NewSink(kernelEnabled), START, NO_FEED) && Idle(START)
  {
    StartInv();
    assert Admissible(START, []) && Exec(START, []) == START;
  }

  lemma {:induction false} ServeFollows(kernelEnabled: bool, calls: seq<Call>) returns (r: Run)
    requires (forall c :: c in calls ==> WellFormed(c)) && SessionTimely(NewSink(kernelEnabled), calls)
    requires 2 * |calls| < USIZE_MAX
    ensures Follows(Served(NewSink(kernelEnabled), calls), r, SessionFed(NewSink(kernelEnabled), calls))
    ensures Idle(r) && r.s.round <= 2 * |calls|
    decreases |calls|
  {
    hide Follows, Consumed, CallFed, CallTimely, WellFormed, Idle;
    if calls == [] {
      NewFollows(kernelEnabled);
      r := START;
    } else {
      var init := calls[..|calls| - 1];
      assert forall c :: c in init ==> c in calls;
      r := ServeFollows(kernelEnabled, init);
      assert calls[|calls| - 1] in calls;
      r := CallFollows(Served(NewSink(kernelEnabled), init), r, SessionFed(NewSink(kernelEnabled), init), calls[|calls| - 1]);
    }
  }

  /** Whatever errors occur, everything the sink takes out of the sorter, flushed or not, is
      strictly in order of timestamp and arrival, except that a flushed event may be followed
      by older ones that were queued after it was flushed. Every event queued is taken out
      once or still waits, and carries the timestamp it is sorted by. */
  lemma SessionInOrder(kernelEnabled: bool, calls: seq<Call>)
    requires (forall c :: c in calls ==> WellFormed(c)) && SessionTimely(NewSink(kernelEnabled), calls)
    requires 2 * |calls| < USIZE_MAX
    ensures var end := Served(NewSink(kernelEnabled), calls);
      && (forall i, j :: 0 <= i < j < |end.handed| ==> InTurn(end.handed[i], end.handed[j].entry))
      && (forall h, y :: h in end.handed && y in end.heap ==> InTurn(h, y))
      && |end.handed| + |end.heap| == end.next
      && KeysMatch(end)
  {
    hide Served, SessionTimely, SessionFed, WellFormed, Reachable, Fed;
    var r := ServeFollows(kernelEnabled, calls);
  }

  // -------------------------------------------------- sessions with one flush

  /** Nothing was forced out so far. */
  ghost predicate NoneForced(s: Sink) {
    forall h :: h in s.handed ==> !h.forced
  }

  lemma {:induction false} NoneIsForced(log: seq<Handed>)
    ensures ForcedOut(log) == [] <==> forall h :: h in log ==> !h.forced
  {
    if log != [] {
      var init, last := log[..|log| - 1], log[|log| - 1];
      NoneIsForced(init);
      assert forall h :: h in log <==> h in init || h == last;
    }
  }

  /** The call as far as its passes go. */
  function Unflushed(call: Call): (r: Call) {
    call.(flush := false, sweep := false)
  }

  lemma {:induction false} SessionForcesNone(s: Sink, calls: seq<Call>)
    requires NoneForced(s) && forall c :: c in calls ==> !c.flush && !c.sweep
    ensures NoneForced(Served(s, calls))
  {
    hide AfterPasses, PassesOf, Drained, NoneForced;
    if calls != [] {
      var init := calls[..|calls| - 1];
      assert forall c :: c in init ==> c in calls;
      SessionForcesNone(s, init);
      assert calls[|calls| - 1] in calls;
      CallForcesNone(Served(s, init), calls[|calls| - 1]);
    }
  }

  lemma CallForcesNone(s: Sink, call: Call)
    requires NoneForced(s) && !call.flush && !call.sweep
    ensures NoneForced(Consumed(s, call))
  {
    hide Consumed, ForcedOut;
    NothingForced(s, call);
    NoneIsForced(s.handed);
    NoneIsForced(Consumed(s, call).handed);
  }

  /** Everything taken out is strictly sorted, and everything left comes after it. */
  ghost predicate Sorted(s: Sink) {
    && (forall i, j :: 0 <= i < j < |s.handed| ==> Less(s.handed[i].entry, s.handed[j].entry))
    && (forall h, y :: h in s.handed && y in s.heap ==> Less(h.entry, y))
  }

  lemma TakeKeepsSorted(s: Sink, force: bool)
    requires Sorted(s) && Released(s, force)
    ensures Sorted(TakenAndFinished(s, force))
  {
    TakenIs(s, force);
    var t := TakenAndFinished(s, force);
    hide TakenAndFinished, FirstOf, Released;
    forall i, j | 0 <= i < j < |t.handed|
      ensures Less(t.handed[i].entry, t.handed[j].entry)
    {
      assert t.handed[i] == s.handed[i] && s.handed[i] in s.handed;
    }
  }

  lemma {:induction false} DrainKeepsSorted(s: Sink, force: bool)
    requires Sorted(s)
    ensures Sorted(Drained(s, force))
    decreases |s.heap|
  {
    hide Drained, Released, TakenAndFinished, Sorted;
    DrainedStep(s, force);
    if Released(s, force) {
      TakeKeepsSorted(s, force);
      DrainKeepsSorted(TakenAndFinished(s, force), force);
    }
  }

  lemma SameButFlush(kernelEnabled: bool, init: seq<Call>, call: Call)
    requires SessionTimely(NewSink(kernelEnabled), init + [call])
    ensures SessionTimely(NewSink(kernelEnabled), init + [Unflushed(call)])
    ensures Served(NewSink(kernelEnabled), init + [Unflushed(call)]) == Consumed(Served(NewSink(kernelEnabled), init), Unflushed(call))
    ensures Served(NewSink(kernelEnabled), init + [call]) == Consumed(Served(NewSink(kernelEnabled), init), call)
  {
    hide PassesOf, AfterPasses, PassesTimely, Drained;
    var s := Served(NewSink(kernelEnabled), init);
    assert (init + [call])[..|init|] == init && (init + [Unflushed(call)])[..|init|] == init;
    assert PassesOf(s, Unflushed(call)) == PassesOf(s, call) by { SamePasses(s, call); }
  }

  lemma SamePasses(s: Sink, call: Call)
    ensures PassesOf(s, Unflushed(call)) == PassesOf(s, call)
  {
  }

  lemma FlushedAfter(s: Sink, call: Call)
    requires Sorted(Consumed(s, Unflushed(call)))
    ensures Sorted(Consumed(s, call))
  {
    hide Sorted, Drained, AfterPasses;
    SamePasses(s, call);
    hide PassesOf;
    if AllComplete(PassesOf(s, call)) {
      DrainKeepsSorted(Detached(AfterPasses(Begun(s), PassesOf(s, call))), true);
    }
  }

  /** A session that flushes only in its last call takes everything out strictly in order. */
  lemma LastFlushInOrder(kernelEnabled: bool, init: seq<Call>, call: Call)
    requires (forall c :: c in init ==> WellFormed(c) && !c.flush && !c.sweep) && WellFormed(call)
    requires SessionTimely(NewSink(kernelEnabled), init + [call]) && 2 * |init| + 2 < USIZE_MAX
    ensures var end := Served(NewSink(kernelEnabled), init + [call]);
      && (forall i, j :: 0 <= i < j < |end.handed| ==> Less(end.handed[i].entry, end.handed[j].entry))
      && (forall h, y :: h in end.handed && y in end.heap ==> Less(h.entry, y))
  {
    hide Served, SessionTimely, Consumed, KeysMatch;
    var s := Served(NewSink(kernelEnabled), init);
    SameButFlush(kernelEnabled, init, call);
    assert WellFormed(Unflushed(call));
    hide WellFormed;
    SessionInOrder(kernelEnabled, init + [Unflushed(call)]);
    SessionForcesNone(NewSink(kernelEnabled), init);
    CallForcesNone(s, Unflushed(call));
    assert Sorted(Consumed(s, Unflushed(call)));
    FlushedAfter(s, call);
  }

  // ----------------------------------------------------------- bounded delay

  lemma {:induction false} NothingDue(s: Sink)
    requires Drained(s, false).ok
    ensures !Released(Drained(s, false), false)
    decreases |s.heap|
  {
    hide Drained, Released, TakenAndFinished;
    DrainedStep(s, false);
    if Released(s, false) {
      NothingDue(TakenAndFinished(s, false));
    }
  }

  lemma {:induction false} PassDrains(s: Sink, batch: seq<RingRead>)
    requires Complete(batch) && PassMade(s, batch).ok
    ensures !Released(PassMade(s, batch), false)
    decreases |batch|
  {
    hide Drained, RingBegun, PassMade, Released;
    PassStep(s, batch);
    if batch == [] {
      NothingDue(s.(round := s.round + 1, current := None));
    } else {
      PassDrains(Drained(RingBegun(s, batch[0]), false), batch[1..]);
    }
  }

  /** When a ring is read, everything that was due before has been handed on. */
  lemma ReadsWhenDrained(s: Sink, read: RingRead)
    ensures exists t: Sink ::
      && RingBegun(s, read) == ReadAll(t, read.events) && t.current == Some(read.fd) && t.round == s.round
      && (t.ok ==> !Released(t, false))
  {
    var t := Drained(s.(current := Some(read.fd)), false);
    DrainKeepsPosition(s.(current := Some(read.fd)), false);
    hide Drained, ReadAll, Released;
    if t.ok {
      NothingDue(s.(current := Some(read.fd)));
    }
    assert RingBegun(s, read) == ReadAll(t, read.events);
  }

  /** After a pass that read every ring and met no error, only events of the last two
      rounds still wait. */
  lemma WaitsAtMostTwoRounds(s: Sink, r: Run, f: Feed, batch: seq<RingRead>, x: Entry)
    requires Follows(s, r, f) && Idle(r) && Ascending(batch) && Fds(batch) == r.rings
    requires PassTimely(f, batch) && s.round + 1 < USIZE_MAX
    requires Complete(batch) && PassMade(s, batch).ok && x in PassMade(s, batch).heap
    ensures PassMade(s, batch).round <= x.round + 2
  {
    IdleRemains(r, batch);
    PassDrains(s, batch);
    var r' := PassFollows(s, r, f, batch);
    hide PassMade;
    InvNumbered(r');
    if Reached(r'.s, x.round + 2, x.group) {
      BoundedDelay(r', x);
    }
  }
}
