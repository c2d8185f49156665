/** The account of samples: every sample seen is in one counter, queued, or given up. */
module SampleAccount {
  import opened Bits
  import opened Sorter
  import opened Recorder
  import SampleRecord

  /** Samples a summary accounts for. */
  function Accounted(s: Summary): (n: nat) {
    s.missingPid + s.missingTid + s.idleTid + s.missingTimestamp + s.excludedKernel + s.emptyStack + s.samples
  }

  function Capped(n: nat): (r: nat) {
    if n < USIZE_MAX then n else USIZE_MAX
  }

  /** The counters of `s` are those of `exact`, each stopped at its maximum. */
  ghost predicate CountersShow(s: Summary, exact: Summary) {
    && s.kernelEnabled == exact.kernelEnabled
    && s.sampleEvents == Capped(exact.sampleEvents)
    && s.missingPid == Capped(exact.missingPid) && s.missingTid == Capped(exact.missingTid)
    && s.idleTid == Capped(exact.idleTid) && s.missingTimestamp == Capped(exact.missingTimestamp)
    && s.excludedKernel == Capped(exact.excludedKernel)
    && s.emptyStack == Capped(exact.emptyStack) && s.samples == Capped(exact.samples)
  }

  ghost function Added(s: Summary, p: Place): Summary {
    match p
    case MissingPid => s.(missingPid := s.missingPid + 1)
    case MissingTid => s.(missingTid := s.missingTid + 1)
    case IdleTid => s.(idleTid := s.idleTid + 1)
    case MissingTimestamp => s.(missingTimestamp := s.missingTimestamp + 1)
    case ExcludedKernel => s.(excludedKernel := s.excludedKernel + 1)
    case EmptyStack => s.(emptyStack := s.emptyStack + 1)
    case WrittenSample => s.(samples := s.samples + 1)
  }

  lemma CountKeeps(s: Summary, exact: Summary, p: Place)
    requires CountersShow(s, exact)
    ensures CountersShow(Bumped(s, p), Added(exact, p)) && Accounted(Added(exact, p)) == Accounted(exact) + 1
    ensures Added(exact, p).sampleEvents == exact.sampleEvents
  {
  }

  lemma SeenKeeps(s: Summary, exact: Summary)
    requires CountersShow(s, exact)
    ensures var more := exact.(sampleEvents := exact.sampleEvents + 1);
      CountersShow(Seen(s), more) && Accounted(more) == Accounted(exact)
  {
  }

  ghost function SampleKeys(heap: map<Entry, Prepared>): set<Entry> {
    set x | x in heap && heap[x].Sample?
  }

  /** Samples waiting in the sorter. */
  ghost function Queued(heap: map<Entry, Prepared>): nat {
    |SampleKeys(heap)|
  }

  lemma QueuedPush(heap: map<Entry, Prepared>, x: Entry, p: Prepared)
    requires x !in heap
    ensures Queued(heap[x := p]) == Queued(heap) + IsOne(p)
  {
    assert SampleKeys(heap[x := p]) == if p.Sample? then SampleKeys(heap) + {x} else SampleKeys(heap);
  }

  lemma QueuedPop(heap: map<Entry, Prepared>, x: Entry)
    requires x in heap
    ensures Queued(heap - {x}) + IsOne(heap[x]) == Queued(heap)
  {
    assert SampleKeys(heap - {x}) == SampleKeys(heap) - {x};
  }

  // ------------------------------------------------------------ the balance

  /** `exact` counts what the summary counts, without a maximum, and nothing is missing;
      `hand` samples are in neither the sorter nor a counter yet. */
  ghost predicate Balanced(s: Sink, exact: Summary, hand: nat) {
    && CountersShow(s.summary, exact)
    && exact.sampleEvents == Accounted(exact) + Queued(s.heap) + s.lost + hand
    && Numbered(s.heap.Keys) && (forall x :: x in s.heap ==> x.sequence < s.next)
  }

  lemma BalanceNumbers(s: Sink, exact: Summary)
    requires Balanced(s, exact, 0)
    ensures Numbered(s.heap.Keys)
  {
  }

  lemma NewIsBalanced(kernelEnabled: bool)
    ensures Balanced(NewSink(kernelEnabled), NoEvents(kernelEnabled), 0)
  {
    assert SampleKeys(map[]) == {};
  }

  lemma CountedBalance(summary: Summary, exact: Summary, e: Event) returns (exact': Summary)
    requires CountersShow(summary, exact)
    ensures CountersShow(CountedIn(summary, e), exact')
    ensures exact'.sampleEvents == exact.sampleEvents + (if e.SampleEvent? then 1 else 0)
    ensures Accounted(exact') == Accounted(exact) + (if PreparedOf(e) == None then 1 else 0)
  {
    hide Bumped, CountersShow, Accounted, Seen;
    exact' := exact;
    if e.SampleEvent? {
      SeenKeeps(summary, exact);
      exact' := exact.(sampleEvents := exact.sampleEvents + 1);
      if !Usable(e.task, e.time) {
        CountKeeps(Seen(summary), exact', Fault(e.task));
        exact' := Added(exact', Fault(e.task));
      }
    }
  }

  /** Reading an event counts it once, and queues it or counts why not. */
  lemma ReadOneBalance(s: Sink, exact: Summary, e: Event) returns (exact': Summary)
    requires Balanced(s, exact, 0) && s.current.Some?
    ensures Balanced(ReadOne(s, e), exact', 0)
    ensures exact'.sampleEvents == exact.sampleEvents + (if s.ok && e.SampleEvent? then 1 else 0)
    ensures ReadOne(s, e).current == s.current && ReadOne(s, e).ok == s.ok && ReadOne(s, e).lost == s.lost
  {
    exact' := exact;
    if s.ok {
      exact' := CountedBalance(s.summary, exact, e);
      hide CountersShow, Accounted, CountedIn, Queued;
      if PreparedOf(e).Some? {
        var x := Entry(s.current.value, s.round, KeyOf(e), s.next);
        QueuedPush(s.heap, x, PreparedOf(e).value);
      }
    }
  }

  function SampleCount(events: seq<Event>): (n: nat) {
    if events == [] then 0
    else SampleCount(events[..|events| - 1]) + if events[|events| - 1].SampleEvent? then 1 else 0
  }

  lemma {:induction false} ReadAllBalance(s: Sink, exact: Summary, events: seq<Event>) returns (exact': Summary)
    requires Balanced(s, exact, 0) && s.current.Some?
    ensures Balanced(ReadAll(s, events), exact', 0)
    ensures exact'.sampleEvents == exact.sampleEvents + (if s.ok then SampleCount(events) else 0)
    ensures var r := ReadAll(s, events); r.current == s.current && r.ok == s.ok && r.lost == s.lost
  {
    hide Balanced, ReadOne;
    if events == [] {
      exact' := exact;
    } else {
      var init := events[..|events| - 1];
      exact' := ReadAllBalance(s, exact, init);
      exact' := ReadOneBalance(ReadAll(s, init), exact', events[|events| - 1]);
    }
  }

  /** Finishing an event settles it in exactly one place. */
  lemma FinishBalance(s: Sink, exact: Summary, p: Prepared) returns (exact': Summary)
    requires Balanced(s, exact, IsOne(p))
    ensures Balanced(Finished(s, p), exact', 0) && exact'.sampleEvents == exact.sampleEvents
  {
    exact' := exact;
    if s.ok && !Fails(p, s.summary.kernelEnabled) && p.Sample? {
      var place := Settled(p.privilege, p.write, s.summary.kernelEnabled).value;
      CountKeeps(s.summary, exact, place);
      exact' := Added(exact, place);
      hide CountersShow, Accounted, Queued, Added, Bumped;
    }
  }

  lemma TakeBalance(s: Sink, exact: Summary, force: bool) returns (exact': Summary)
    requires Balanced(s, exact, 0) && Released(s, force)
    ensures Balanced(TakenAndFinished(s, force), exact', 0) && exact'.sampleEvents == exact.sampleEvents
  {
    hide CountersShow, Accounted, Queued, First, Ready, Finished;
    QueuedPop(s.heap, FirstOf(s));
    exact' := FinishBalance(Taken(s, force), exact, s.heap[FirstOf(s)]);
  }

  lemma {:induction false} DrainBalance(s: Sink, exact: Summary, force: bool) returns (exact': Summary)
    requires Balanced(s, exact, 0)
    ensures Balanced(Drained(s, force), exact', 0) && exact'.sampleEvents == exact.sampleEvents
    decreases |s.heap|
  {
    hide Balanced, Drained, Released, TakenAndFinished;
    DrainedStep(s, force);
    exact' := exact;
    if Released(s, force) {
      exact' := TakeBalance(s, exact, force);
      if TakenAndFinished(s, force).ok {
        exact' := DrainBalance(TakenAndFinished(s, force), exact', force);
      }
    }
  }

  // --------------------------------------------------------- what a drain loses

  /** The drain may take the event, once everything before it is gone. */
  predicate Due(s: Sink, force: bool, x: Entry) {
    force || Releasable(SorterOf(s), x)
  }

  /** The drain comes to `x` and stops there: everything up to `x` is due, everything before
      it can be finished, and `x` cannot, or an error is pending and `x` comes first. */
  ghost predicate StopsAt(s: Sink, force: bool, x: Entry) {
    && x in s.heap && Due(s, force, x) && (s.ok ==> Fails(s.heap[x], s.summary.kernelEnabled))
    && (forall y :: y in s.heap && Less(y, x) ==> Due(s, force, y) && s.ok && !Fails(s.heap[y], s.summary.kernelEnabled))
  }

  ghost predicate Stops(s: Sink, force: bool) {
    exists x :: StopsAt(s, force, x)
  }

  ghost predicate StopsAtSample(s: Sink, force: bool) {
    exists x :: StopsAt(s, force, x) && s.heap[x].Sample?
  }

  /** A drain that can finish its first event stops where it stops without it. */
  lemma StopsLater(s: Sink, force: bool, x: Entry)
    requires Released(s, force) && s.ok && !Fails(s.heap[FirstOf(s)], s.summary.kernelEnabled)
    ensures var t := TakenAndFinished(s, force);
      && (StopsAt(s, force, x) <==> StopsAt(t, force, x))
      && (x in t.heap ==> x in s.heap && t.heap[x] == s.heap[x])
  {
    FinishKeepsPosition(s, force);
    var t, first := TakenAndFinished(s, force), FirstOf(s);
    assert IsFirst(s.heap.Keys, first);
    assert t.heap == s.heap - {first} && t.ok;
    hide First, Ready, Fails, TakenAndFinished;
    assert forall y :: Due(t, force, y) == Due(s, force, y);
  }

  /** A drain that cannot finish its first event stops there and nowhere else. */
  lemma StopsFirst(s: Sink, force: bool)
    requires Released(s, force) && (s.ok ==> Fails(s.heap[FirstOf(s)], s.summary.kernelEnabled))
    ensures forall x :: StopsAt(s, force, x) <==> x == FirstOf(s)
  {
    assert IsFirst(s.heap.Keys, FirstOf(s));
    hide Fails, First;
  }

  lemma NeverStops(s: Sink, force: bool)
    requires !Released(s, force) && Numbered(s.heap.Keys)
    ensures forall x :: !StopsAt(s, force, x)
  {
    hide Fails;
    if s.heap != map[] {
      assert IsFirst(s.heap.Keys, FirstOf(s));
    }
  }

  /** Where a drain stops is decided before it starts, and the event it stops at is all that
      it gives up. */
  lemma {:induction false} DrainLoss(s: Sink, force: bool)
    requires Numbered(s.heap.Keys)
    ensures Drained(s, force).ok <==> s.ok && !Stops(s, force)
    ensures Drained(s, force).lost == s.lost + if StopsAtSample(s, force) then 1 else 0
    decreases |s.heap|
  {
    hide Drained, Ready, First, StopsAt;
    DrainedStep(s, force);
    if !Released(s, force) {
      NeverStops(s, force);
    } else if !s.ok || Fails(s.heap[FirstOf(s)], s.summary.kernelEnabled) {
      StopsFirst(s, force);
      assert StopsAt(s, force, FirstOf(s));
    } else {
      var t := TakenAndFinished(s, force);
      DrainLoss(t, force);
      forall x
        ensures StopsAt(s, force, x) <==> StopsAt(t, force, x)
        ensures x in t.heap ==> x in s.heap && t.heap[x] == s.heap[x]
      {
        StopsLater(s, force, x);
      }
      SameStop(s, t, force);
    }
  }

  lemma SameStop(s: Sink, t: Sink, force: bool)
    requires forall x :: StopsAt(s, force, x) <==> StopsAt(t, force, x)
    requires forall x :: x in t.heap ==> x in s.heap && t.heap[x] == s.heap[x]
    ensures (Stops(s, force) <==> Stops(t, force)) && (StopsAtSample(s, force) <==> StopsAtSample(t, force))
  {
    assert forall x :: StopsAt(t, force, x) ==> x in t.heap;
    hide StopsAt;
  }

  // ------------------------------------------------------------------ passes

  /** The reads a pass makes: up to the first ring that cannot be read. */
  function Reads(batch: seq<RingRead>): (r: seq<RingRead>) {
    if batch == [] then [] else [batch[0]] + if batch[0].ok then Reads(batch[1..]) else []
  }

  function SamplesIn(batch: seq<RingRead>): (n: nat) {
    if batch == [] then 0 else SampleCount(batch[0].events) + SamplesIn(batch[1..])
  }

  lemma {:induction false} CompleteReads(batch: seq<RingRead>)
    requires Complete(batch)
    ensures Reads(batch) == batch
  {
    if batch != [] {
      CompleteReads(batch[1..]);
    }
  }

  lemma RingBalance(s: Sink, exact: Summary, read: RingRead) returns (exact': Summary)
    requires Balanced(s, exact, 0)
    ensures Balanced(RingBegun(s, read), exact', 0)
    ensures RingBegun(s, read).ok ==> s.ok && RingBegun(s, read).lost == s.lost
    ensures RingBegun(s, read).ok ==> exact'.sampleEvents == exact.sampleEvents + SampleCount(read.events)
    ensures exact.sampleEvents <= exact'.sampleEvents
  {
    var begun := s.(current := Some(read.fd));
    assert Balanced(begun, exact, 0);
    hide Balanced, Drained, ReadAll;
    DrainLoss(begun, false);
    DrainKeepsPosition(begun, false);
    exact' := DrainBalance(begun, exact, false);
    exact' := ReadAllBalance(Drained(begun, false), exact', read.events);
  }

  /** A pass keeps the account; if no error occurred, it counted every sample of its reads
      and gave none up. */
  lemma {:induction false} PassBalance(s: Sink, exact: Summary, batch: seq<RingRead>) returns (exact': Summary)
    requires Balanced(s, exact, 0)
    ensures Balanced(PassMade(s, batch), exact', 0)
    ensures PassMade(s, batch).ok ==> s.ok && PassMade(s, batch).lost == s.lost
    ensures PassMade(s, batch).ok ==> exact'.sampleEvents == exact.sampleEvents + SamplesIn(Reads(batch))
    decreases |batch|
  {
    hide PassMade, Drained, RingBegun, SamplesIn, Reads;
    PassStep(s, batch);
    ReadsStep(batch);
    if batch == [] {
      var ended := s.(round := s.round + 1, current := None);
      SameBalance(s, ended, exact);
      DrainLoss(ended, false);
      exact' := DrainBalance(ended, exact, false);
    } else {
      hide Balanced;
      exact' := RingBalance(s, exact, batch[0]);
      var begun := RingBegun(s, batch[0]);
      if !batch[0].ok {
        DetachBalance(begun, exact');
        SameBalance(Detached(begun), Detached(begun).(current := None), exact');
      } else {
        DrainLoss(begun, false);
        exact' := DrainBalance(begun, exact', false);
        exact' := PassBalance(Drained(begun, false), exact', batch[1..]);
      }
    }
  }

  lemma DetachBalance(s: Sink, exact: Summary)
    requires Balanced(s, exact, 0)
    ensures Balanced(Detached(s), exact, 0)
  {
    hide CountersShow, Accounted;
    assert SampleKeys(Detached(s).heap) == SampleKeys(s.heap);
    assert Detached(s).heap.Keys == s.heap.Keys;
  }

  lemma SameBalance(s: Sink, r: Sink, exact: Summary)
    requires Balanced(s, exact, 0)
    requires r.heap == s.heap && r.next == s.next && r.summary == s.summary && r.lost == s.lost
    ensures Balanced(r, exact, 0)
  {
  }

  lemma ReadsStep(batch: seq<RingRead>)
    ensures batch == [] ==> SamplesIn(Reads(batch)) == 0
    ensures batch != [] ==>
      SamplesIn(Reads(batch)) == SampleCount(batch[0].events) + if batch[0].ok then SamplesIn(Reads(batch[1..])) else 0
  {
    if batch != [] {
      assert Reads(batch)[0] == batch[0];
      assert Reads(batch)[1..] == if batch[0].ok then Reads(batch[1..]) else [];
    }
  }

  function SamplesRead(passes: seq<seq<RingRead>>): (n: nat) {
    if passes == [] then 0 else SamplesRead(passes[..|passes| - 1]) + SamplesIn(Reads(passes[|passes| - 1]))
  }

  lemma {:induction false} PassesBalance(s: Sink, exact: Summary, passes: seq<seq<RingRead>>) returns (exact': Summary)
    requires Balanced(s, exact, 0)
    ensures Balanced(AfterPasses(s, passes), exact', 0)
    ensures AfterPasses(s, passes).ok ==> s.ok && AfterPasses(s, passes).lost == s.lost
    ensures AfterPasses(s, passes).ok ==> exact'.sampleEvents == exact.sampleEvents + SamplesRead(passes)
    decreases |passes|
  {
    hide Balanced, PassMade, Reads, SamplesIn;
    if passes == [] {
      exact' := exact;
    } else {
      var init := passes[..|passes| - 1];
      exact' := PassesBalance(s, exact, init);
      exact' := PassBalance(AfterPasses(s, init), exact', passes[|passes| - 1]);
    }
  }

  /** A call keeps the account; if it succeeds, it counted every sample of its passes and
      gave none up. */
  lemma ConsumeBalance(s: Sink, exact: Summary, call: Call) returns (exact': Summary)
    requires Balanced(s, exact, 0)
    ensures Balanced(Consumed(s, call), exact', 0)
    ensures Succeeds(s, call) ==> Consumed(s, call).lost == s.lost
    ensures Succeeds(s, call) ==> exact'.sampleEvents == exact.sampleEvents + SamplesRead(PassesOf(s, call))
  {
    assert Balanced(Begun(s), exact, 0);
    hide Balanced, PassMade, Drained, SamplesRead, AfterPasses, PassesOf;
    var passes := PassesOf(s, call);
    exact' := PassesBalance(Begun(s), exact, passes);
    var read := AfterPasses(Begun(s), passes);
    if AllComplete(passes) {
      DetachBalance(read, exact');
      BalanceNumbers(Detached(read), exact');
      DrainLoss(Detached(read), true);
      if Forces(call, read.ok) {
        exact' := DrainBalance(Detached(read), exact', true);
      }
    }
  }

  /** The sample events in the reads some calls make. */
  function Delivered(s: Sink, calls: seq<Call>): (n: nat) {
    if calls == [] then 0
    else
      var init := calls[..|calls| - 1];
      Delivered(s, init) + SamplesRead(PassesOf(Served(s, init), calls[|calls| - 1]))
  }

  lemma {:induction false} ServeBalance(s: Sink, exact: Summary, calls: seq<Call>) returns (exact': Summary)
    requires Balanced(s, exact, 0)
    ensures Balanced(Served(s, calls), exact', 0)
    ensures AllSucceed(s, calls) ==> Served(s, calls).lost == s.lost
    ensures AllSucceed(s, calls) ==> exact'.sampleEvents == exact.sampleEvents + Delivered(s, calls)
    decreases |calls|
  {
    hide Balanced, Consumed, Succeeds, SamplesRead, PassesOf;
    if calls == [] {
      exact' := exact;
    } else {
      var init := calls[..|calls| - 1];
      exact' := ServeBalance(s, exact, init);
      exact' := ConsumeBalance(Served(s, init), exact', calls[|calls| - 1]);
    }
  }

  // ------------------------------------------------------------------ the law

  /** Every sample seen is in exactly one counter, or still queued. */
  ghost predicate Conserved(s: Summary, queued: nat) {
    s.sampleEvents == s.missingPid + s.missingTid + s.idleTid + s.missingTimestamp
      + s.excludedKernel + s.emptyStack + s.samples + queued
  }

  lemma BalanceMeans(s: Sink, exact: Summary)
    requires Balanced(s, exact, 0) && s.summary.sampleEvents < USIZE_MAX
    ensures exact.sampleEvents == s.summary.sampleEvents
    ensures Conserved(s.summary, Queued(s.heap) + s.lost) && (Conserved(s.summary, Queued(s.heap)) <==> s.lost == 0)
  {
    hide Queued;
    assert exact.sampleEvents == s.summary.sampleEvents;
    assert Accounted(exact) <= exact.sampleEvents;
  }

  /** After any number of calls that all succeed, the recorder has seen exactly the sample
      events of the reads it made, and, below the counters' maximum, each of them is in
      exactly one counter or still queued. */
  lemma SessionConserves(kernelEnabled: bool, calls: seq<Call>)
    requires AllSucceed(NewSink(kernelEnabled), calls)
    ensures var end := Served(NewSink(kernelEnabled), calls); var seen := Delivered(NewSink(kernelEnabled), calls);
      && end.summary.sampleEvents == Capped(seen)
      && (seen < USIZE_MAX ==> Conserved(end.summary, Queued(end.heap)))
  {
    hide Served, AllSucceed, Delivered, Accounted, Queued, Conserved;
    NewIsBalanced(kernelEnabled);
    var exact := ServeBalance(NewSink(kernelEnabled), NoEvents(kernelEnabled), calls);
    var end := Served(NewSink(kernelEnabled), calls);
    if end.summary.sampleEvents < USIZE_MAX {
      BalanceMeans(end, exact);
    }
  }

  /** Below the maximum, a drain from any state, in a pass or between calls, leaves the law
      intact exactly if it held before and the drain does not stop at a sample. */
  lemma DrainKeepsLaw(s: Sink, exact: Summary, force: bool)
    requires Balanced(s, exact, 0) && s.summary.sampleEvents < USIZE_MAX
    ensures var r := Drained(s, force);
      Conserved(r.summary, Queued(r.heap)) <==> Conserved(s.summary, Queued(s.heap)) && !StopsAtSample(s, force)
  {
    hide Accounted, Queued, Conserved, Drained, StopsAtSample, Stops, CountersShow;
    BalanceMeans(s, exact);
    var exact' := DrainBalance(s, exact, force);
    DrainLoss(s, force);
    SameSeen(s.summary, exact, Drained(s, force).summary, exact');
    BalanceMeans(Drained(s, force), exact');
  }

  lemma SameSeen(a: Summary, exact: Summary, b: Summary, exact': Summary)
    requires CountersShow(a, exact) && CountersShow(b, exact') && exact.sampleEvents == exact'.sampleEvents
    ensures a.sampleEvents == b.sampleEvents
  {
  }

  // --------------------------------------------------- the law over whole sessions

  /** A drain that is about to start. */
  datatype DrainStart = DrainStart(s: Sink, force: bool)

  /** The drains of a pass, each with the state it starts from. */
  ghost function PassDrains(s: Sink, batch: seq<RingRead>): seq<DrainStart>
    decreases |batch|
  {
    if batch == [] then [DrainStart(s.(round := s.round + 1, current := None), false)]
    else
      [DrainStart(s.(current := Some(batch[0].fd)), false)] +
      if !batch[0].ok then []
      else
        var begun := RingBegun(s, batch[0]);
        [DrainStart(begun, false)] + PassDrains(Drained(begun, false), batch[1..])
  }

  ghost function PassesDrains(s: Sink, passes: seq<seq<RingRead>>): seq<DrainStart> {
    if passes == [] then []
    else
      var init := passes[..|passes| - 1];
      PassesDrains(s, init) + PassDrains(AfterPasses(s, init), passes[|passes| - 1])
  }

  ghost function CallDrains(s: Sink, call: Call): seq<DrainStart> {
    var passes := PassesOf(s, call);
    var read := AfterPasses(Begun(s), passes);
    PassesDrains(Begun(s), passes) +
    if AllComplete(passes) && Forces(call, read.ok) then [DrainStart(Detached(read), true)] else []
  }

  ghost function SessionDrains(s: Sink, calls: seq<Call>): seq<DrainStart> {
    if calls == [] then []
    else
      var init := calls[..|calls| - 1];
      SessionDrains(s, init) + CallDrains(Served(s, init), calls[|calls| - 1])
  }

  /** How many of some drains stop at a sample. */
  ghost function Losses(drains: seq<DrainStart>): nat {
    if drains == [] then 0
    else (if StopsAtSample(drains[0].s, drains[0].force) then 1 else 0) + Losses(drains[1..])
  }

  lemma {:induction false} LossesConcat(a: seq<DrainStart>, b: seq<DrainStart>)
    ensures Losses(a + b) == Losses(a) + Losses(b)
  {
    hide StopsAtSample;
    if a == [] {
      assert a + b == b;
    } else {
      assert (a + b)[1..] == a[1..] + b;
      LossesConcat(a[1..], b);
    }
  }

  lemma {:induction false} NoLosses(drains: seq<DrainStart>)
    ensures Losses(drains) == 0 <==> forall d :: d in drains ==> !StopsAtSample(d.s, d.force)
  {
    hide StopsAtSample;
    if drains != [] {
      NoLosses(drains[1..]);
      assert forall d :: d in drains <==> d == drains[0] || d in drains[1..];
    }
  }

  lemma OneLoss(s: Sink, exact: Summary, force: bool)
    requires Balanced(s, exact, 0)
    ensures Drained(s, force).lost == s.lost + Losses([DrainStart(s, force)])
  {
    hide StopsAtSample, Drained, CountersShow, Queued, Accounted;
    DrainLoss(s, force);
    assert [DrainStart(s, force)][1..] == [];
  }

  lemma {:induction false} PassLoss(s: Sink, exact: Summary, batch: seq<RingRead>)
    requires Balanced(s, exact, 0)
    ensures PassMade(s, batch).lost == s.lost + Losses(PassDrains(s, batch))
    decreases |batch|
  {
    hide PassMade, Drained, ReadAll, Balanced, Losses;
    PassStep(s, batch);
    if batch == [] {
      var ended := s.(round := s.round + 1, current := None);
      SameBalance(s, ended, exact);
      OneLoss(ended, exact, false);
    } else {
      var open := s.(current := Some(batch[0].fd));
      SameBalance(s, open, exact);
      OneLoss(open, exact, false);
      ReadKeepsLoss(Drained(open, false), batch[0].events);
      if batch[0].ok {
        var begun := RingBegun(s, batch[0]);
        var exact1 := RingBalance(s, exact, batch[0]);
        OneLoss(begun, exact1, false);
        var exact2 := DrainBalance(begun, exact1, false);
        PassLoss(Drained(begun, false), exact2, batch[1..]);
        LossesConcat([DrainStart(begun, false)], PassDrains(Drained(begun, false), batch[1..]));
        LossesConcat([DrainStart(open, false)], [DrainStart(begun, false)] + PassDrains(Drained(begun, false), batch[1..]));
      } else {
        assert PassDrains(s, batch) == [DrainStart(open, false)];
      }
    }
  }

  lemma {:induction false} ReadKeepsLoss(s: Sink, events: seq<Event>)
    ensures ReadAll(s, events).lost == s.lost
  {
    if events != [] {
      ReadKeepsLoss(s, events[..|events| - 1]);
    }
  }

  lemma {:induction false} PassesLoss(s: Sink, exact: Summary, passes: seq<seq<RingRead>>)
    requires Balanced(s, exact, 0)
    ensures AfterPasses(s, passes).lost == s.lost + Losses(PassesDrains(s, passes))
    decreases |passes|
  {
    hide PassMade, PassDrains, Balanced;
    if passes != [] {
      var init := passes[..|passes| - 1];
      PassesLoss(s, exact, init);
      var exact' := PassesBalance(s, exact, init);
      PassLoss(AfterPasses(s, init), exact', passes[|passes| - 1]);
      hide Losses;
      LossesConcat(PassesDrains(s, init), PassDrains(AfterPasses(s, init), passes[|passes| - 1]));
    }
  }

  lemma CallLoss(s: Sink, exact: Summary, call: Call)
    requires Balanced(s, exact, 0)
    ensures Consumed(s, call).lost == s.lost + Losses(CallDrains(s, call))
  {
    hide PassesDrains, AfterPasses, PassesOf, Drained, Balanced;
    var begun, passes := Begun(s), PassesOf(s, call);
    SameBalance(s, begun, exact);
    PassesLoss(begun, exact, passes);
    var exact' := PassesBalance(begun, exact, passes);
    var read := AfterPasses(begun, passes);
    if AllComplete(passes) && Forces(call, read.ok) {
      DetachBalance(read, exact');
      OneLoss(Detached(read), exact', true);
      LossesConcat(PassesDrains(begun, passes), [DrainStart(Detached(read), true)]);
    } else {
      assert PassesDrains(begun, passes) + [] == PassesDrains(begun, passes);
    }
  }

  lemma {:induction false} SessionLoss(s: Sink, exact: Summary, calls: seq<Call>)
    requires Balanced(s, exact, 0)
    ensures Served(s, calls).lost == s.lost + Losses(SessionDrains(s, calls))
    decreases |calls|
  {
    hide Balanced, Consumed, CallDrains;
    if calls != [] {
      var init := calls[..|calls| - 1];
      SessionLoss(s, exact, init);
      var exact' := ServeBalance(s, exact, init);
      CallLoss(Served(s, init), exact', calls[|calls| - 1]);
      hide Losses;
      LossesConcat(SessionDrains(s, init), CallDrains(Served(s, init), calls[|calls| - 1]));
    }
  }

  /** After any calls, whatever failed in them: below the maximum, the samples that are in no
      counter and not queued are as many as the drains that stopped at a sample. So the law
      holds exactly if no drain did. */
  lemma SessionLaw(kernelEnabled: bool, calls: seq<Call>)
    requires Served(NewSink(kernelEnabled), calls).summary.sampleEvents < USIZE_MAX
    ensures var end := Served(NewSink(kernelEnabled), calls); var drains := SessionDrains(NewSink(kernelEnabled), calls);
      && Conserved(end.summary, Queued(end.heap) + Losses(drains))
      && (Conserved(end.summary, Queued(end.heap)) <==> forall d :: d in drains ==> !StopsAtSample(d.s, d.force))
  {
    hide Served, SessionDrains, Losses, Queued, StopsAtSample;
    NewIsBalanced(kernelEnabled);
    var s, exact := NewSink(kernelEnabled), NoEvents(kernelEnabled);
    SessionLoss(s, exact, calls);
    NoLosses(SessionDrains(s, calls));
    var exact' := ServeBalance(s, exact, calls);
    BalanceMeans(Served(s, calls), exact');
  }

  // -------------------------------------------------------- a run that loses one

  const BAD_RECORD := OtherEvent(Some(1), true)
  const GOOD_SAMPLE := SampleEvent(Some((5, 5)), Some(2), SampleRecord.User, Written)
  const FIRST_PASS := [RingRead(1, [BAD_RECORD, GOOD_SAMPLE], true)]
  const SECOND_PASS := [RingRead(1, [], true)]

  const BAD_ENTRY := Entry(1, 0, 1, 0)
  const GOOD_ENTRY := Entry(1, 0, 2, 1)

  /** Both events are queued by the first pass, and neither is released yet. */
  lemma FirstPass(s: Sink)
    requires s == NewSink(true)
    ensures PassMade(s, FIRST_PASS) == s.(
      heap := map[BAD_ENTRY := Record(1, true), GOOD_ENTRY := Sample(2, 5, 5, SampleRecord.User, Written, true)],
      round := 1, next := 2, summary := s.summary.(sampleEvents := 1))
  {
    var begun := s.(current := Some(1));
    DrainedStep(begun, false);
    var events := FIRST_PASS[0].events;
    assert events == [BAD_RECORD, GOOD_SAMPLE];
    var one := ReadOne(begun, BAD_RECORD);
    assert events[..1] == [BAD_RECORD] && events[..1][..0] == [];
    assert ReadAll(begun, events[..1][..0]) == begun;
    assert ReadAll(begun, events[..1]) == one;
    var two := ReadOne(one, GOOD_SAMPLE);
    assert ReadAll(begun, events) == two;
    assert two.heap == map[BAD_ENTRY := Record(1, true), GOOD_ENTRY := Sample(2, 5, 5, SampleRecord.User, Written, true)];
    NotDue(two);
    DrainedStep(two, false);
    var ended := two.(round := 1, current := None);
    NotDue(ended);
    DrainedStep(ended, false);
    assert FIRST_PASS[1..] == [];
    assert PassMade(two, []) == Drained(ended, false);
  }

  lemma NotDue(s: Sink)
    requires s.heap.Keys == {BAD_ENTRY, GOOD_ENTRY} && (s.round == 0 || (s.round == 1 && s.current == None))
    ensures !Released(s, false)
  {
  }

  /** A pending error and a due sample: the drain takes the sample and gives it up. */
  lemma TakesSample(s: Sink)
    requires s.heap.Keys == {GOOD_ENTRY} && s.heap[GOOD_ENTRY].Sample? && s.round == 1 && s.current == Some(1) && !s.ok
    ensures Drained(s, false) == s.(heap := map[], lost := s.lost + 1, handed := s.handed + [Handed(GOOD_ENTRY, false, s.next)])
  {
    assert IsFirst(s.heap.Keys, GOOD_ENTRY);
    assert FirstOf(s) == GOOD_ENTRY && Released(s, false);
    DrainedStep(s, false);
    assert s.heap - {GOOD_ENTRY} == map[];
  }

  lemma FailsRecord(s: Sink)
    requires s.heap.Keys == {BAD_ENTRY, GOOD_ENTRY} && s.heap[BAD_ENTRY] == Record(1, true)
    requires s.round == 1 && s.current == Some(1) && s.ok
    ensures Drained(s, false) == s.(heap := s.heap - {BAD_ENTRY}, ok := false, handed := s.handed + [Handed(BAD_ENTRY, false, s.next)])
  {
    assert IsFirst(s.heap.Keys, BAD_ENTRY);
    assert FirstOf(s) == BAD_ENTRY && Released(s, false);
    DrainedStep(s, false);
  }

  lemma SecondPass(s: Sink)
    requires s.heap == map[BAD_ENTRY := Record(1, true), GOOD_ENTRY := Sample(2, 5, 5, SampleRecord.User, Written, true)]
    requires s.round == 1 && s.ok
    ensures PassMade(s, SECOND_PASS).heap == map[] && PassMade(s, SECOND_PASS).summary == s.summary
    ensures PassMade(s, SECOND_PASS).lost == s.lost + 1 && !PassMade(s, SECOND_PASS).ok
  {
    hide PassMade, Drained, ReadAll;
    var begun := s.(current := Some(1));
    FailsRecord(begun);
    var failed := Drained(begun, false);
    NothingRead(failed);
    assert failed.heap.Keys == {GOOD_ENTRY};
    assert RingBegun(s, SECOND_PASS[0]) == failed;
    PassStep(s, SECOND_PASS);
    TakesSample(failed);
    var gone := Drained(failed, false);
    assert SECOND_PASS[1..] == [];
    PassStep(gone, []);
    DrainedStep(gone.(round := gone.round + 1, current := None), false);
  }

  lemma NothingRead(s: Sink)
    ensures ReadAll(s, []) == s
  {
  }

  /** The law fails after an error: the record at time 1 cannot be finished, the drain after
      the ring's read takes the sample at time 2 before it looks at the error, and the
      sample is then in no counter and no longer queued. */
  lemma ErrorLosesSample()
    ensures exists calls :: var end := Served(NewSink(true), calls);
      && end.summary.sampleEvents == 1 && end.heap == map[]
      && !Conserved(end.summary, Queued(end.heap))
  {
    hide PassMade, Drained, AfterPasses;
    var call := Call(FIRST_PASS, SECOND_PASS, false, false);
    var s := NewSink(true);
    FirstPass(s);
    var middle := PassMade(s, FIRST_PASS);
    assert BAD_ENTRY in middle.heap;
    SecondPass(middle);
    BothPasses(s, call, middle);
    var end := Consumed(s, call);
    assert [call][..0] == [];
    assert Served(s, [call]) == end;
    assert SampleKeys(map[]) == {};
    NothingToDetach(PassMade(middle, call.second));
    assert end.summary == NoEvents(true).(sampleEvents := 1);
  }

  lemma BothPasses(s: Sink, call: Call, middle: Sink)
    requires Begun(s) == s && middle == PassMade(s, call.first) && middle.heap != map[] && Complete(call.first)
    requires !call.flush && !call.sweep
    ensures AllComplete([call.first, call.second]) ==> Consumed(s, call) == Detached(PassMade(middle, call.second))
  {
    hide PassMade, Drained, AfterPasses;
    assert Begun(s) == s;
    assert PassesOf(s, call) == [call.first, call.second];
    TwoPasses(s, call.first, call.second);
  }
}
