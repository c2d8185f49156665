/** From reading a sample event to writing or dropping it: the recorder's counters, the
    sorter in between, and the loop that reads the rings. */
module Recorder {
  import opened Bits
  import opened Sorter
  import SampleRecord

  const I32_LIMIT: nat := 0x8000_0000

  /** What writing a sample's frames comes to. */
  datatype Write = Empty | Written | Failed

  datatype Event =
    | SampleEvent(task: Option<(nat, nat)>, time: Option<nat>, privilege: SampleRecord.Priv, write: Write)
    | OtherEvent(time: Option<nat>, fails: bool)

  /** A queued event; a sample may still lie in the ring it was read from. */
  datatype Prepared =
    | Sample(timestamp: nat, pid: nat, tid: nat, privilege: SampleRecord.Priv, write: Write, inRing: bool)
    | Record(timestamp: nat, fails: bool)

  datatype Summary = Summary(
    sampleEvents: nat, missingPid: nat, missingTid: nat, idleTid: nat, missingTimestamp: nat,
    excludedKernel: nat, emptyStack: nat, samples: nat, kernelEnabled: bool)

  function NoEvents(kernelEnabled: bool): (s: Summary) {
    Summary(0, 0, 0, 0, 0, 0, 0, 0, kernelEnabled)
  }

  function Bump(counter: nat): (r: nat) {
    SatAdd(counter, 1)
  }

  predicate IsKernelMode(p: SampleRecord.Priv) {
    p.Kernel? || p.GuestKernel?
  }

  /** The key an event is sorted by. */
  function KeyOf(e: Event): (k: nat) {
    if e.time.Some? then e.time.value else 0
  }

  // -------------------------------------------------------------- the counters

  /** Where a sample ends up. */
  datatype Place =
    | MissingPid | MissingTid | IdleTid | MissingTimestamp | ExcludedKernel | EmptyStack | WrittenSample

  function Bumped(s: Summary, p: Place): (r: Summary) {
    match p
    case MissingPid => s.(missingPid := Bump(s.missingPid))
    case MissingTid => s.(missingTid := Bump(s.missingTid))
    case IdleTid => s.(idleTid := Bump(s.idleTid))
    case MissingTimestamp => s.(missingTimestamp := Bump(s.missingTimestamp))
    case ExcludedKernel => s.(excludedKernel := Bump(s.excludedKernel))
    case EmptyStack => s.(emptyStack := Bump(s.emptyStack))
    case WrittenSample => s.(samples := Bump(s.samples))
  }

  function Seen(s: Summary): (r: Summary) {
    s.(sampleEvents := Bump(s.sampleEvents))
  }

  /** A sample is usable if both ids fit their type, the thread is not idle and it has a time. */
  predicate Usable(task: Option<(nat, nat)>, time: Option<nat>) {
    task.Some? && task.value.0 < I32_LIMIT && 0 < task.value.1 < I32_LIMIT && time.Some?
  }

  /** The first reason, in the order they are looked at, why a sample is not usable. */
  function Fault(task: Option<(nat, nat)>): (p: Place) {
    if task == None || task.value.0 >= I32_LIMIT then MissingPid
    else if task.value.1 >= I32_LIMIT then MissingTid
    else if task.value.1 == 0 then IdleTid
    else MissingTimestamp
  }

  /** Where a usable sample ends up, unless writing it fails. */
  function Settled(privilege: SampleRecord.Priv, write: Write, kernelEnabled: bool): (p: Option<Place>) {
    if IsKernelMode(privilege) && !kernelEnabled then Some(ExcludedKernel)
    else match write
      case Empty => Some(EmptyStack)
      case Written => Some(WrittenSample)
      case Failed => None
  }

  // -------------------------------------------------- the sink as a state machine

  /** An event that was taken out of the sorter: by force or by the release rule, and the
      number of events that had been queued by then. */
  datatype Handed = Handed(entry: Entry, forced: bool, before: nat)

  /** The sink between two steps. `lost` counts samples given up after an error, and
      `handed` are the events taken out of the sorter, in order. */
  datatype Sink = Sink(
    heap: map<Entry, Prepared>, current: Option<int>, round: nat, next: nat,
    summary: Summary, ok: bool, lastFinished: nat, lost: nat, handed: seq<Handed>)

  function NewSink(kernelEnabled: bool): (s: Sink) {
    Sink(map[], None, 0, 0, NoEvents(kernelEnabled), true, 0, 0, [])
  }

  function SorterOf(s: Sink): (r: State) {
    State(s.heap.Keys, s.current, s.round, s.next)
  }

  /** What an event is queued as, if it is. */
  function PreparedOf(e: Event): (p: Option<Prepared>) {
    match e
    case SampleEvent(task, time, privilege, write) =>
      if Usable(task, time) then Some(Sample(time.value, task.value.0, task.value.1, privilege, write, true)) else None
    case OtherEvent(_, fails) => Some(Record(KeyOf(e), fails))
  }

  /** The summary after an event was looked at. */
  function CountedIn(s: Summary, e: Event): (r: Summary) {
    if e.OtherEvent? then s
    else if Usable(e.task, e.time) then Seen(s)
    else Bumped(Seen(s), Fault(e.task))
  }

  /** Read one event: after an error nothing is counted or queued. */
  function ReadOne(s: Sink, e: Event): (r: Sink) {
    if !s.ok then s
    else
      var counted := s.(summary := CountedIn(s.summary, e));
      match PreparedOf(e)
      case None => counted
      case Some(p) =>
        if s.current == None then counted
        else counted.(heap := s.heap[Entry(s.current.value, s.round, KeyOf(e), s.next) := p], next := s.next + 1)
  }

  function ReadAll(s: Sink, events: seq<Event>): (r: Sink) {
    if events == [] then s else ReadOne(ReadAll(s, events[..|events| - 1]), events[|events| - 1])
  }

  /** The event cannot be finished. */
  predicate Fails(p: Prepared, kernelEnabled: bool) {
    match p
    case Sample(_, _, _, privilege, write, _) => Settled(privilege, write, kernelEnabled) == None
    case Record(_, fails) => fails
  }

  function IsOne(p: Prepared): (n: nat) {
    if p.Sample? then 1 else 0
  }

  /** Finish one event that was taken out of the sorter. */
  function Finished(s: Sink, p: Prepared): (r: Sink) {
    if !s.ok || Fails(p, s.summary.kernelEnabled) then s.(ok := false, lost := s.lost + IsOne(p))
    else
      s.(summary := if p.Sample? then Bumped(s.summary, Settled(p.privilege, p.write, s.summary.kernelEnabled).value) else s.summary,
         lastFinished := if s.lastFinished < p.timestamp then p.timestamp else s.lastFinished)
  }

  /** The sorter hands an event on, or is made to. */
  predicate Released(s: Sink, force: bool) {
    s.heap != map[] && Numbered(s.heap.Keys) && (force || Ready(SorterOf(s)))
  }

  function FirstOf(s: Sink): (x: Entry)
    requires s.heap != map[] && Numbered(s.heap.Keys)
    ensures x in s.heap
  {
    First(s.heap.Keys)
  }

  /** The sink without its first event. */
  function Taken(s: Sink, force: bool): (r: Sink)
    requires Released(s, force)
    ensures |r.heap| < |s.heap|
  {
    var x := FirstOf(s);
    assert (s.heap - {x}).Keys == s.heap.Keys - {x};
    s.(heap := s.heap - {x}, handed := s.handed + [Handed(x, force, s.next)])
  }

  function TakenAndFinished(s: Sink, force: bool): (r: Sink)
    requires Released(s, force)
    ensures |r.heap| < |s.heap|
  {
    Finished(Taken(s, force), s.heap[FirstOf(s)])
  }

  /** Finish events until none is released or one cannot be finished. */
  function Drained(s: Sink, force: bool): (r: Sink)
    decreases |s.heap|
  {
    if !Released(s, force) then s
    else if TakenAndFinished(s, force).ok then Drained(TakenAndFinished(s, force), force)
    else TakenAndFinished(s, force)
  }

  function DetachRingStorage(p: Prepared): (r: Prepared) {
    if p.Sample? then p.(inRing := false) else p
  }

  /** Every queued sample copied out of its ring. */
  function Detached(s: Sink): (r: Sink) {
    s.(heap := map x | x in s.heap :: DetachRingStorage(s.heap[x]))
  }

  /** What reading one ring delivered, and whether the read reached its end. */
  datatype RingRead = RingRead(fd: int, events: seq<Event>, ok: bool)

  function RingBegun(s: Sink, read: RingRead): (r: Sink) {
    ReadAll(Drained(s.(current := Some(read.fd)), false), read.events)
  }

  /** One pass over the rings; a ring that cannot be read aborts it, after what is queued was
      detached. */
  function PassMade(s: Sink, batch: seq<RingRead>): (r: Sink)
    decreases |batch|
  {
    if batch == [] then Drained(s.(round := s.round + 1, current := None), false)
    else if !batch[0].ok then Detached(RingBegun(s, batch[0])).(current := None)
    else PassMade(Drained(RingBegun(s, batch[0]), false), batch[1..])
  }

  predicate Complete(batch: seq<RingRead>) {
    forall i :: 0 <= i < |batch| ==> batch[i].ok
  }

  /** One call of the consumer: up to two passes, detaching what is still queued, and a forced
      drain if a flush is asked for, or if a recovery sweep is due and no error occurred. */
  datatype Call = Call(first: seq<RingRead>, second: seq<RingRead>, flush: bool, sweep: bool)

  predicate Forces(call: Call, ok: bool) {
    call.flush || (call.sweep && ok)
  }

  /** A call starts without an error and with nothing finished. */
  function Begun(s: Sink): (r: Sink) {
    s.(ok := true, lastFinished := 0)
  }

  /** The passes a call makes: the second only if events are left after the first. */
  function PassesOf(s: Sink, call: Call): (r: seq<seq<RingRead>>) {
    if Complete(call.first) && PassMade(Begun(s), call.first).heap != map[] then [call.first, call.second] else [call.first]
  }

  function AfterPasses(s: Sink, passes: seq<seq<RingRead>>): (r: Sink) {
    if passes == [] then s else PassMade(AfterPasses(s, passes[..|passes| - 1]), passes[|passes| - 1])
  }

  predicate AllComplete(passes: seq<seq<RingRead>>) {
    forall i :: 0 <= i < |passes| ==> Complete(passes[i])
  }

  function Consumed(s: Sink, call: Call): (r: Sink) {
    var passes := PassesOf(s, call);
    var read := AfterPasses(Begun(s), passes);
    if !AllComplete(passes) then read
    else if Forces(call, read.ok) then Drained(Detached(read), true)
    else Detached(read)
  }

  /** Every ring was read and every event finished. */
  predicate Succeeds(s: Sink, call: Call) {
    AllComplete(PassesOf(s, call)) && Consumed(s, call).ok
  }

  function Served(s: Sink, calls: seq<Call>): (r: Sink) {
    if calls == [] then s else Consumed(Served(s, calls[..|calls| - 1]), calls[|calls| - 1])
  }

  predicate AllSucceed(s: Sink, calls: seq<Call>) {
    calls == [] ||
    (AllSucceed(s, calls[..|calls| - 1]) && Succeeds(Served(s, calls[..|calls| - 1]), calls[|calls| - 1]))
  }

  // ------------------------------------------------------------ the mutable sink

  class DrainSink {
    const sorter: EventSorter<Prepared>
    var summary: Summary
    var ok: bool
    var lastFinished: nat
    ghost var lost: nat
    ghost var handed: seq<Handed>

    ghost predicate Valid()
      reads this, sorter
    {
      sorter.Valid()
    }

    ghost function Abs(): Sink
      reads this, sorter
    {
      Sink(sorter.heap, sorter.currentGroup, sorter.round, sorter.nextSequence, summary, ok, lastFinished, lost, handed)
    }

    constructor (kernelEnabled: bool)
      ensures Valid() && fresh(sorter) && Abs() == NewSink(kernelEnabled)
    {
      sorter := new EventSorter<Prepared>();
      summary, ok, lastFinished := NoEvents(kernelEnabled), true, 0;
      lost, handed := 0, [];
    }

    /** Classify a sample: keep it, or count why it is skipped. */
    method PrepareSampleMeta(task: Option<(nat, nat)>, time: Option<nat>) returns (meta: Option<(nat, nat, nat)>)
      modifies this`summary
      ensures meta == match (task, time)
        case (Some((pid, tid)), Some(t)) => if pid < 0x8000_0000 && 0 < tid < 0x8000_0000 then Some((t, pid, tid)) else None
        case _ => None
      ensures var seen := Seen(old(summary)); summary == match task
        case None => seen.(missingPid := Bump(seen.missingPid))
        case Some((pid, tid)) =>
          if 0x8000_0000 <= pid then seen.(missingPid := Bump(seen.missingPid))
          else if 0x8000_0000 <= tid then seen.(missingTid := Bump(seen.missingTid))
          else if tid == 0 then seen.(idleTid := Bump(seen.idleTid))
          else if time == None then seen.(missingTimestamp := Bump(seen.missingTimestamp))
          else seen
    {
      summary := Seen(summary);
      if task == None || task.value.0 >= I32_LIMIT {
        summary := summary.(missingPid := Bump(summary.missingPid));
        return None;
      }
      if task.value.1 >= I32_LIMIT {
        summary := summary.(missingTid := Bump(summary.missingTid));
        return None;
      }
      if task.value.1 == 0 {
        summary := summary.(idleTid := Bump(summary.idleTid));
        return None;
      }
      if time == None {
        summary := summary.(missingTimestamp := Bump(summary.missingTimestamp));
        return None;
      }
      return Some((time.value, task.value.0, task.value.1));
    }

    /** Nothing is prepared, and nothing counted, once an error has occurred. */
    method PrepareEvent(e: Event) returns (p: Option<Prepared>)
      modifies this`summary
      ensures p == if ok then PreparedOf(e) else None
      ensures summary == if ok then CountedIn(old(summary), e) else old(summary)
    {
      hide Seen;
      if !ok {
        return None;
      }
      match e
      case SampleEvent(task, time, privilege, write) =>
        var meta := PrepareSampleMeta(task, time);
        if meta == None {
          return None;
        }
        return Some(Sample(meta.value.0, meta.value.1, meta.value.2, privilege, write, true));
      case OtherEvent(time, fails) =>
        return Some(Record(if time.Some? then time.value else 0, fails));
    }

    /** Hand a prepared event to the sorter, under its timestamp. */
    method QueueEvent(timestamp: nat, p: Option<Prepared>)
      requires Valid() && sorter.currentGroup.Some? && sorter.nextSequence < U64_LIMIT - 1
      modifies sorter
      ensures Valid()
      ensures Abs() == match p
        case None => old(Abs())
        case Some(v) => old(Abs()).(
          heap := old(sorter.heap)[Entry(old(sorter.currentGroup).value, old(sorter.round), timestamp, old(sorter.nextSequence)) := v],
          next := old(sorter.nextSequence) + 1)
    {
      if p.Some? {
        sorter.PushCurrentGroup(timestamp, p.value);
      }
    }

    /** Write a sample, or count why it is not written. */
    method RecordPreparedSample(privilege: SampleRecord.Priv, write: Write) returns (done: bool)
      modifies this`summary
      ensures var was := old(summary);
        if privilege in {SampleRecord.Kernel, SampleRecord.GuestKernel} && !was.kernelEnabled then
          done && summary == was.(excludedKernel := Bump(was.excludedKernel))
        else match write
          case Empty => done && summary == was.(emptyStack := Bump(was.emptyStack))
          case Written => done && summary == was.(samples := Bump(was.samples))
          case Failed => !done && summary == was
    {
      if IsKernelMode(privilege) && !summary.kernelEnabled {
        summary := summary.(excludedKernel := Bump(summary.excludedKernel));
        return true;
      }
      match write
      case Failed =>
        return false;
      case Empty =>
        summary := summary.(emptyStack := Bump(summary.emptyStack));
        return true;
      case Written =>
        summary := summary.(samples := Bump(summary.samples));
        return true;
    }

    /** Finish an event, unless an error has occurred. */
    method FinishEvent(p: Prepared)
      modifies this
      ensures Abs() == Finished(old(Abs()), p)
    {
      if !ok {
        lost := lost + IsOne(p);
        return;
      }
      var done: bool;
      match p {
        case Sample(_, _, _, privilege, write, _) => done := RecordPreparedSample(privilege, write);
        case Record(_, fails) => done := !fails;
      }
      if !done {
        ok := false;
        lost := lost + IsOne(p);
      } else if lastFinished < p.timestamp {
        lastFinished := p.timestamp;
      }
    }

    /** Finish events until none is released or one cannot be finished. */
    method DrainSorter(force: bool)
      requires Valid()
      modifies this, sorter
      ensures Valid() && Abs() == Drained(old(Abs()), force)
    {
      hide Drained;
      ghost var start := Abs();
      var more := true;
      while more
        invariant Valid()
        invariant if more then Drained(Abs(), force) == Drained(start, force) else Abs() == Drained(start, force)
        decreases more, |sorter.heap|
      {
        DrainedStep(Abs(), force);
        more := FinishNext(force);
      }
    }

    /** Take and finish one event, if one is released. */
    method FinishNext(force: bool) returns (more: bool)
      requires Valid()
      modifies this, sorter
      ensures Valid()
      ensures if old(Released(Abs(), force))
        then Abs() == TakenAndFinished(old(Abs()), force) && more == ok && |sorter.heap| < |old(sorter.heap)|
        else Abs() == old(Abs()) && !more
    {
      hide First, Ready, Finished;
      assert Numbered(sorter.heap.Keys);
      ghost var before := Abs();
      var p := sorter.Take(force);
      if p == None {
        return false;
      }
      handed := handed + [Handed(First(before.heap.Keys), force, before.next)];
      assert Abs() == Taken(before, force);
      hide Taken;
      FinishEvent(p.value);
      return ok;
    }

    /** Read one ring: prepare and queue each of its events. */
    method DrainOutputRing(events: seq<Event>)
      requires Valid() && sorter.currentGroup.Some? && sorter.nextSequence + |events| < U64_LIMIT
      modifies this, sorter
      ensures Valid() && Abs() == ReadAll(old(Abs()), events)
      ensures sorter.nextSequence <= old(sorter.nextSequence) + |events|
      ensures sorter.currentGroup == old(sorter.currentGroup) && sorter.round == old(sorter.round)
    {
      hide CountedIn, PreparedOf;
      ghost var start := Abs();
      for i := 0 to |events|
        invariant Valid() && Abs() == ReadAll(start, events[..i])
        invariant sorter.nextSequence <= old(sorter.nextSequence) + i
        invariant sorter.currentGroup == old(sorter.currentGroup) && sorter.round == old(sorter.round)
      {
        assert events[..i + 1][..i] == events[..i];
        var p := PrepareEvent(events[i]);
        QueueEvent(KeyOf(events[i]), p);
      }
      assert events[..|events|] == events;
    }

    /** One pass over the rings in ascending order. */
    method DrainEventRound(batch: seq<RingRead>) returns (done: bool)
      requires Valid() && sorter.currentGroup == None && Ascending(batch)
      requires sorter.nextSequence + EventCount(batch) < U64_LIMIT && sorter.round < USIZE_MAX
      modifies this, sorter
      ensures Valid() && Abs() == PassMade(old(Abs()), batch) && done == Complete(batch)
      ensures sorter.currentGroup == None && sorter.round <= old(sorter.round) + 1
      ensures sorter.nextSequence <= old(sorter.nextSequence) + EventCount(batch)
    {
      hide Drained, ReadAll;
      ghost var start := Abs();
      for k := 0 to |batch|
        invariant Valid() && PassMade(Abs(), batch[k..]) == PassMade(start, batch)
        invariant sorter.currentGroup == (if k == 0 then None else Some(batch[k - 1].fd))
        invariant sorter.round == old(sorter.round)
        invariant sorter.nextSequence + EventCount(batch[k..]) <= old(sorter.nextSequence) + EventCount(batch)
        invariant forall i :: 0 <= i < k ==> batch[i].ok
      {
        assert batch[k..][0] == batch[k] && batch[k..][1..] == batch[k + 1..];
        var read := batch[k];
        ghost var before := Abs();
        sorter.BeginGroup(read.fd);
        DrainQuietly();
        DrainOutputRing(read.events);
        assert Abs() == RingBegun(before, read);
        if !read.ok {
          DetachQueuedEvents();
          sorter.AbortRound();
          return false;
        }
        DrainQuietly();
      }
      sorter.AdvanceRound();
      DrainQuietly();
      return true;
    }

    /** Copy every queued sample out of its ring. */
    method DetachQueuedEvents()
      requires Valid()
      modifies sorter
      ensures Valid() && Abs() == Detached(old(Abs()))
    {
      ghost var before := Abs();
      sorter.VisitValuesMut(DetachRingStorage);
      assert sorter.heap == Detached(before).heap;
    }

    /** Hand on what the release rule allows. */
    method DrainQuietly()
      requires Valid()
      modifies this, sorter
      ensures Valid() && Abs() == Drained(old(Abs()), false)
      ensures sorter.currentGroup == old(sorter.currentGroup) && sorter.round == old(sorter.round)
      ensures sorter.nextSequence == old(sorter.nextSequence)
    {
      DrainKeepsPosition(Abs(), false);
      hide Drained;
      DrainSorter(false);
    }

    /** One call: two passes at most, then detaching, then a forced drain if one is due. */
    method Consume(call: Call) returns (done: bool)
      requires Valid() && sorter.currentGroup == None && Ascending(call.first) && Ascending(call.second)
      requires sorter.nextSequence + EventCount(call.first) + EventCount(call.second) < U64_LIMIT
      requires sorter.round + 2 <= USIZE_MAX
      modifies this, sorter
      ensures Valid() && Abs() == Consumed(old(Abs()), call) && done == Succeeds(old(Abs()), call)
      ensures sorter.currentGroup == None && sorter.round <= old(sorter.round) + 2
      ensures sorter.nextSequence <= old(sorter.nextSequence) + EventCount(call.first) + EventCount(call.second)
    {
      hide PassMade, Drained, Complete;
      ghost var start := Abs();
      ok, lastFinished := true, 0;
      ghost var begun := Abs();
      OnePass(begun, call.first);
      done := DrainEventRound(call.first);
      if !done {
        return;
      }
      if sorter.HasMore() {
        TwoPasses(begun, call.first, call.second);
        done := DrainEventRound(call.second);
        if !done {
          return;
        }
      }
      if sorter.HasMore() {
        DetachQueuedEvents();
      } else {
        NothingToDetach(Abs());
      }
      if Forces(call, ok) {
        DrainKeepsPosition(Abs(), true);
        DrainSorter(true);
      }
      return ok;
    }
  }

  function EventCount(batch: seq<RingRead>): (n: nat) {
    if batch == [] then 0 else |batch[0].events| + EventCount(batch[1..])
  }

  predicate Ascending(batch: seq<RingRead>) {
    forall i, j :: 0 <= i < j < |batch| ==> batch[i].fd < batch[j].fd
  }

  lemma DrainedStep(s: Sink, force: bool)
    ensures !Released(s, force) ==> Drained(s, force) == s
    ensures Released(s, force) ==>
      var t := TakenAndFinished(s, force); Drained(s, force) == if t.ok then Drained(t, force) else t
  {
  }

  lemma FinishKeepsPosition(s: Sink, force: bool)
    requires Released(s, force)
    ensures var r := TakenAndFinished(s, force);
      r.current == s.current && r.round == s.round && r.next == s.next && r.summary.kernelEnabled == s.summary.kernelEnabled
  {
    hide First, Ready;
  }

  lemma {:induction false} DrainKeepsPosition(s: Sink, force: bool)
    ensures var r := Drained(s, force);
      r.current == s.current && r.round == s.round && r.next == s.next && r.summary.kernelEnabled == s.summary.kernelEnabled
    decreases |s.heap|
  {
    hide Drained, TakenAndFinished, Released;
    DrainedStep(s, force);
    if Released(s, force) {
      FinishKeepsPosition(s, force);
      DrainKeepsPosition(TakenAndFinished(s, force), force);
    }
  }

  lemma PassStep(s: Sink, batch: seq<RingRead>)
    ensures batch == [] ==> PassMade(s, batch) == Drained(s.(round := s.round + 1, current := None), false)
    ensures batch != [] && !batch[0].ok ==> PassMade(s, batch) == Detached(RingBegun(s, batch[0])).(current := None)
    ensures batch != [] && batch[0].ok ==> PassMade(s, batch) == PassMade(Drained(RingBegun(s, batch[0]), false), batch[1..])
  {
    hide Drained, RingBegun;
  }

  lemma NothingToDetach(s: Sink)
    requires s.heap == map[]
    ensures Detached(s) == s
  {
    assert Detached(s).heap == map[];
  }

  /** No queued sample still lies in a ring. */
  predicate NoneInRing(s: Sink) {
    forall x :: x in s.heap && s.heap[x].Sample? ==> !s.heap[x].inRing
  }

  lemma {:induction false} AbortDetaches(s: Sink, batch: seq<RingRead>)
    requires !Complete(batch)
    ensures NoneInRing(PassMade(s, batch))
    decreases |batch|
  {
    hide Drained, RingBegun, PassMade;
    PassStep(s, batch);
    if batch[0].ok {
      AbortDetaches(Drained(RingBegun(s, batch[0]), false), batch[1..]);
    }
  }

  lemma {:induction false} DrainStaysDetached(s: Sink, force: bool)
    requires NoneInRing(s)
    ensures NoneInRing(Drained(s, force))
    decreases |s.heap|
  {
    hide Drained, Ready, First, Fails;
    DrainedStep(s, force);
    if Released(s, force) {
      DrainStaysDetached(TakenAndFinished(s, force), force);
    }
  }

  /** However a call ends, it leaves no sample in a ring. */
  lemma CallDetaches(s: Sink, call: Call)
    ensures NoneInRing(Consumed(s, call))
  {
    var begun, passes := Begun(s), PassesOf(s, call);
    OnePass(begun, call.first);
    TwoPasses(begun, call.first, call.second);
    var read := AfterPasses(begun, passes);
    hide PassMade, Drained, AfterPasses, Complete;
    if !AllComplete(passes) {
      if !Complete(call.first) {
        AbortDetaches(begun, call.first);
      } else {
        AbortDetaches(PassMade(begun, call.first), call.second);
      }
    } else {
      assert NoneInRing(Detached(read));
      DrainStaysDetached(Detached(read), true);
    }
  }

  lemma OnePass(s: Sink, a: seq<RingRead>)
    ensures AfterPasses(s, [a]) == PassMade(s, a) && (AllComplete([a]) <==> Complete(a))
  {
    assert [a][..0] == [];
    assert AfterPasses(s, []) == s;
  }

  lemma TwoPasses(s: Sink, a: seq<RingRead>, b: seq<RingRead>)
    ensures AfterPasses(s, [a, b]) == PassMade(PassMade(s, a), b) && (AllComplete([a, b]) <==> Complete(a) && Complete(b))
  {
    OnePass(s, a);
    assert [a, b][..1] == [a];
    assert forall i :: 0 <= i < 2 ==> [a, b][i] == if i == 0 then a else b;
    assert [a, b][0] == a && [a, b][1] == b;
  }

  function CallCount(calls: seq<Call>): (n: nat) {
    if calls == [] then 0 else EventCount(calls[0].first) + EventCount(calls[0].second) + CallCount(calls[1..])
  }

  /** Any number of calls leave exactly what the state machine says. */
  method Session(kernelEnabled: bool, calls: seq<Call>)
      returns (summary: Summary, waiting: map<Entry, Prepared>, ok: bool)
    requires forall c :: c in calls ==> Ascending(c.first) && Ascending(c.second)
    requires CallCount(calls) < U64_LIMIT && 2 * |calls| <= USIZE_MAX
    ensures var end := Served(NewSink(kernelEnabled), calls); summary == end.summary && waiting == end.heap
    ensures ok == AllSucceed(NewSink(kernelEnabled), calls)
  {
    hide Consumed, Succeeds;
    var sink := new DrainSink(kernelEnabled);
    ok := true;
    ghost var start := NewSink(kernelEnabled);
    for i := 0 to |calls|
      invariant fresh(sink) && fresh(sink.sorter) && sink.Valid() && sink.sorter.currentGroup == None
      invariant sink.Abs() == Served(start, calls[..i]) && ok == AllSucceed(start, calls[..i])
      invariant sink.sorter.nextSequence + CallCount(calls[i..]) <= CallCount(calls)
      invariant sink.sorter.round <= 2 * i
    {
      assert calls[i..][1..] == calls[i + 1..] && calls[..i + 1][..i] == calls[..i];
      var served := sink.Consume(calls[i]);
      ok := ok && served;
    }
    assert calls[..|calls|] == calls;
    summary, waiting := sink.summary, sink.sorter.heap;
  }
}
