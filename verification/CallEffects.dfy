/** What a call of the consumer achieves: what a flush takes out, what a call without one
    leaves alone, which reads it makes, and how far it has got in time. */
module CallEffects {
  import opened Bits
  import opened Sorter
  import opened Recorder
  import opened SampleAccount

  /** A forced drain that ends without an error has taken everything out. */
  lemma {:induction false} ForcedDrainEmpties(s: Sink)
    requires Numbered(s.heap.Keys) && Drained(s, true).ok
    ensures Drained(s, true).heap == map[]
    decreases |s.heap|
  {
    DrainedStep(s, true);
    if s.heap != map[] {
      TakenLeaves(s, true);
      hide Drained, TakenAndFinished;
      assert Released(s, true);
      ForcedDrainEmpties(TakenAndFinished(s, true));
    }
  }

  lemma TakenLeaves(s: Sink, force: bool)
    requires Released(s, force)
    ensures var t := TakenAndFinished(s, force);
      && t.heap == s.heap - {FirstOf(s)} && t.heap.Keys <= s.heap.Keys
      && t.handed == s.handed + [Handed(FirstOf(s), force, s.next)]
      && (!s.ok ==> !t.ok)
  {
    hide First, Ready, Fails;
  }

  /** With an error pending, a forced drain takes just one event out. */
  lemma PendingErrorTakesOne(s: Sink)
    requires !s.ok && s.heap != map[] && Numbered(s.heap.Keys)
    ensures Drained(s, true).handed == s.handed + [Handed(FirstOf(s), true, s.next)]
    ensures Drained(s, true).heap == s.heap - {FirstOf(s)} && !Drained(s, true).ok
  {
    DrainedStep(s, true);
    TakenLeaves(s, true);
  }

  /** A call that flushes, or sweeps, and succeeds leaves nothing queued. */
  lemma FlushEmpties(s: Sink, exact: Summary, call: Call)
    requires Balanced(s, exact, 0) && (call.flush || call.sweep) && Succeeds(s, call)
    ensures Consumed(s, call).heap == map[]
  {
    var passes := PassesOf(s, call);
    SameBalance(s, Begun(s), exact);
    hide PassesOf, AfterPasses, Drained, Balanced;
    var exact' := PassesBalance(Begun(s), exact, passes);
    var read := AfterPasses(Begun(s), passes);
    DetachBalance(read, exact');
    BalanceNumbers(Detached(read), exact');
    if !read.ok {
      assert Consumed(s, call) == if call.flush then Drained(Detached(read), true) else Detached(read);
      DrainLoss(Detached(read), true);
    } else {
      assert Consumed(s, call) == Drained(Detached(read), true);
      ForcedDrainEmpties(Detached(read));
    }
  }

  // ------------------------------------------------------ without a flush or sweep

  /** What was forced out, in order. */
  ghost function ForcedOut(log: seq<Handed>): seq<Handed> {
    if log == [] then []
    else ForcedOut(log[..|log| - 1]) + if log[|log| - 1].forced then [log[|log| - 1]] else []
  }

  lemma ForcedOutNext(log: seq<Handed>, h: Handed)
    ensures ForcedOut(log + [h]) == ForcedOut(log) + if h.forced then [h] else []
  {
    assert (log + [h])[..|log|] == log;
  }

  lemma {:induction false} DrainForcesNothing(s: Sink)
    ensures ForcedOut(Drained(s, false).handed) == ForcedOut(s.handed)
    decreases |s.heap|
  {
    hide Drained, TakenAndFinished, ForcedOut;
    DrainedStep(s, false);
    if Released(s, false) {
      TakenLeaves(s, false);
      ForcedOutNext(s.handed, Handed(FirstOf(s), false, s.next));
      DrainForcesNothing(TakenAndFinished(s, false));
    }
  }

  lemma {:induction false} ReadTakesNothing(s: Sink, events: seq<Event>)
    ensures ReadAll(s, events).handed == s.handed
  {
    if events != [] {
      ReadTakesNothing(s, events[..|events| - 1]);
    }
  }

  lemma {:induction false} PassForcesNothing(s: Sink, batch: seq<RingRead>)
    ensures ForcedOut(PassMade(s, batch).handed) == ForcedOut(s.handed)
    decreases |batch|
  {
    hide Drained, ReadAll, PassMade, ForcedOut;
    PassStep(s, batch);
    if batch == [] {
      DrainForcesNothing(s.(round := s.round + 1, current := None));
    } else {
      var begun := s.(current := Some(batch[0].fd));
      DrainForcesNothing(begun);
      ReadTakesNothing(Drained(begun, false), batch[0].events);
      DrainForcesNothing(RingBegun(s, batch[0]));
      if batch[0].ok {
        PassForcesNothing(Drained(RingBegun(s, batch[0]), false), batch[1..]);
      }
    }
  }

  /** The sink after the passes of a call, before anything is forced out: a first pass, and a
      second one if the first was complete and left events queued. */
  ghost function AfterReads(s: Sink, call: Call): Sink {
    var first := PassMade(Begun(s), call.first);
    if (forall i :: 0 <= i < |call.first| ==> call.first[i].ok) && first.heap != map[] then PassMade(first, call.second) else first
  }

  lemma PassesAre(s: Sink, call: Call)
    ensures AfterPasses(Begun(s), PassesOf(s, call)) == AfterReads(s, call)
  {
    hide PassMade;
    OnePass(Begun(s), call.first);
    TwoPasses(Begun(s), call.first, call.second);
    hide AfterPasses;
  }

  lemma ReadsForceNothing(s: Sink, call: Call)
    ensures ForcedOut(AfterReads(s, call).handed) == ForcedOut(s.handed)
  {
    hide PassMade, ForcedOut;
    PassForcesNothing(Begun(s), call.first);
    PassForcesNothing(PassMade(Begun(s), call.first), call.second);
  }

  /** A call that neither flushes nor sweeps forces nothing out; nor does a sweep while an
      error is pending, nor any call that could not read a ring. */
  lemma NothingForced(s: Sink, call: Call)
    requires (!call.flush && !call.sweep) || (!call.flush && !AfterReads(s, call).ok) || !AllComplete(PassesOf(s, call))
    ensures Consumed(s, call).handed == AfterReads(s, call).handed
    ensures ForcedOut(Consumed(s, call).handed) == ForcedOut(s.handed)
  {
    PassesAre(s, call);
    ReadsForceNothing(s, call);
    hide AfterReads, PassesOf, AfterPasses, Drained, ForcedOut;
  }

  // ---------------------------------------------------------------- whole sessions

  /** A session whose last call flushes and succeeds leaves nothing queued. */
  lemma SessionFlushed(kernelEnabled: bool, init: seq<Call>, call: Call)
    requires (call.flush || call.sweep) && Succeeds(Served(NewSink(kernelEnabled), init), call)
    ensures Served(NewSink(kernelEnabled), init + [call]).heap == map[]
  {
    ServedNext(NewSink(kernelEnabled), init, call);
    hide Served, Consumed, Succeeds, Balanced;
    NewIsBalanced(kernelEnabled);
    var exact := ServeBalance(NewSink(kernelEnabled), NoEvents(kernelEnabled), init);
    FlushEmpties(Served(NewSink(kernelEnabled), init), exact, call);
  }

  lemma ServedNext(s: Sink, init: seq<Call>, call: Call)
    ensures Served(s, init + [call]) == Consumed(Served(s, init), call)
    ensures AllSucceed(s, init + [call]) <==> AllSucceed(s, init) && Succeeds(Served(s, init), call)
  {
    hide Consumed, Succeeds;
    assert (init + [call])[..|init|] == init;
  }

  /** If every call succeeds and the last one flushes, every sample seen is in one counter. */
  lemma FlushedAccount(kernelEnabled: bool, init: seq<Call>, call: Call)
    requires call.flush && AllSucceed(NewSink(kernelEnabled), init + [call])
    requires Delivered(NewSink(kernelEnabled), init + [call]) < USIZE_MAX
    ensures var s := Served(NewSink(kernelEnabled), init + [call]).summary;
      && s.sampleEvents == Delivered(NewSink(kernelEnabled), init + [call])
      && s.sampleEvents == s.missingPid + s.missingTid + s.idleTid + s.missingTimestamp + s.excludedKernel + s.emptyStack + s.samples
  {
    ServedNext(NewSink(kernelEnabled), init, call);
    hide Served, AllSucceed, Delivered, Succeeds;
    SessionConserves(kernelEnabled, init + [call]);
    SessionFlushed(kernelEnabled, init, call);
    assert SampleKeys(map[]) == {};
  }

  /** The samples a successful call sees: those of its first pass, and those of its second if
      the first one left events queued. */
  lemma CallSees(s: Sink, exact: Summary, call: Call) returns (exact': Summary)
    requires Balanced(s, exact, 0) && Succeeds(s, call)
    ensures Balanced(Consumed(s, call), exact', 0)
    ensures exact'.sampleEvents == exact.sampleEvents + SamplesIn(call.first)
      + if PassMade(Begun(s), call.first).heap == map[] then 0 else SamplesIn(call.second)
  {
    exact' := ConsumeBalance(s, exact, call);
    var passes := PassesOf(s, call);
    hide Balanced, PassMade, Consumed, SamplesIn, Reads;
    CompleteReads(call.first);
    if |passes| == 2 {
      assert passes[1] == call.second;
      CompleteReads(call.second);
      assert passes[..1] == [call.first];
    }
    assert [call.first][..0] == [];
    assert SamplesRead([]) == 0;
    assert SamplesRead([call.first]) == SamplesIn(Reads(call.first));
  }

  /** Neither an error nor a finished time is carried over from the call before. */
  lemma CallStartsAfresh(s: Sink, call: Call, ok: bool, lastFinished: nat)
    ensures var t := s.(ok := ok, lastFinished := lastFinished);
      Consumed(t, call) == Consumed(s, call) && (Succeeds(t, call) <==> Succeeds(s, call))
  {
    hide PassMade, Drained, AfterPasses;
    var t := s.(ok := ok, lastFinished := lastFinished);
    assert Begun(t) == Begun(s) && PassesOf(t, call) == PassesOf(s, call);
  }

  // ------------------------------------------------------- the last finished time

  /** Every queued event carries the timestamp it is sorted by. */
  ghost predicate KeysMatch(s: Sink) {
    forall x :: x in s.heap ==> s.heap[x].timestamp == x.key
  }

  /** The greatest timestamp among the events taken out. */
  ghost function Latest(log: seq<Handed>): int {
    if log == [] then 0
    else
      var before, last := Latest(log[..|log| - 1]), log[|log| - 1].entry.key;
      if before < last then last else before
  }

  lemma LatestNext(log: seq<Handed>, h: Handed)
    ensures Latest(log + [h]) == if Latest(log) < h.entry.key then h.entry.key else Latest(log)
  {
    assert (log + [h])[..|log|] == log;
  }

  /** The last finished time is that of what was taken out after the first `n` events. */
  ghost predicate UpToDate(s: Sink, n: nat) {
    KeysMatch(s) && n <= |s.handed| && s.lastFinished == Latest(s.handed[n..])
  }

  lemma TakeUpToDate(s: Sink, n: nat, force: bool)
    requires UpToDate(s, n) && Released(s, force) && TakenAndFinished(s, force).ok
    ensures UpToDate(TakenAndFinished(s, force), n) && s.ok
  {
    TakenLeaves(s, force);
    var h := Handed(FirstOf(s), force, s.next);
    LatestNext(s.handed[n..], h);
    assert (s.handed + [h])[n..] == s.handed[n..] + [h];
    hide First, Ready, Latest;
  }

  lemma {:induction false} DrainUpToDate(s: Sink, n: nat, force: bool)
    requires UpToDate(s, n) && Drained(s, force).ok
    ensures UpToDate(Drained(s, force), n) && s.ok
    decreases |s.heap|
  {
    hide Drained, TakenAndFinished, Released, UpToDate;
    DrainedStep(s, force);
    if Released(s, force) {
      if TakenAndFinished(s, force).ok {
        TakeUpToDate(s, n, force);
        DrainUpToDate(TakenAndFinished(s, force), n, force);
      }
    }
  }

  lemma {:induction false} ReadUpToDate(s: Sink, n: nat, events: seq<Event>)
    requires UpToDate(s, n)
    ensures UpToDate(ReadAll(s, events), n) && ReadAll(s, events).ok == s.ok
  {
    hide Latest;
    if events != [] {
      ReadUpToDate(s, n, events[..|events| - 1]);
    }
  }

  lemma SameUpToDate(s: Sink, t: Sink, n: nat)
    requires UpToDate(s, n) && t.handed == s.handed && t.lastFinished == s.lastFinished
    requires t.heap == s.heap || t.heap == Detached(s).heap
    ensures UpToDate(t, n)
  {
    hide Latest;
  }

  lemma {:induction false} PassUpToDate(s: Sink, n: nat, batch: seq<RingRead>)
    requires UpToDate(s, n) && PassMade(s, batch).ok
    ensures UpToDate(PassMade(s, batch), n) && s.ok
    decreases |batch|
  {
    hide Drained, ReadAll, PassMade, UpToDate;
    PassStep(s, batch);
    if batch == [] {
      var ended := s.(round := s.round + 1, current := None);
      SameUpToDate(s, ended, n);
      DrainUpToDate(ended, n, false);
    } else {
      var begun := s.(current := Some(batch[0].fd));
      SameUpToDate(s, begun, n);
      RingUpToDate(s, n, batch);
      if batch[0].ok {
        PassUpToDate(Drained(RingBegun(s, batch[0]), false), n, batch[1..]);
      } else {
        SameUpToDate(RingBegun(s, batch[0]), PassMade(s, batch), n);
      }
    }
  }

  /** No error after the pass: none after its first ring, nor after the drain that follows. */
  lemma {:induction false} RingUpToDate(s: Sink, n: nat, batch: seq<RingRead>)
    requires UpToDate(s, n) && batch != [] && PassMade(s, batch).ok
    ensures s.ok && UpToDate(RingBegun(s, batch[0]), n)
    ensures batch[0].ok ==> UpToDate(Drained(RingBegun(s, batch[0]), false), n)
  {
    hide Drained, PassMade, UpToDate;
    PassStep(s, batch);
    var begun, ring := s.(current := Some(batch[0].fd)), RingBegun(s, batch[0]);
    SameUpToDate(s, begun, n);
    if batch[0].ok {
      PassNeedsOk(Drained(ring, false), batch[1..]);
      DrainNeedsOk(ring, false);
    }
    ReadKeepsError(Drained(begun, false), batch[0].events);
    DrainUpToDate(begun, n, false);
    ReadUpToDate(Drained(begun, false), n, batch[0].events);
    if batch[0].ok {
      DrainUpToDate(ring, n, false);
    }
  }

  lemma {:induction false} DrainNeedsOk(s: Sink, force: bool)
    requires Drained(s, force).ok
    ensures s.ok
  {
    DrainedStep(s, force);
    hide Drained, First, Ready;
  }

  lemma {:induction false} ReadKeepsError(s: Sink, events: seq<Event>)
    ensures ReadAll(s, events).ok == s.ok
  {
    if events != [] {
      ReadKeepsError(s, events[..|events| - 1]);
    }
  }

  lemma {:induction false} PassNeedsOk(s: Sink, batch: seq<RingRead>)
    requires PassMade(s, batch).ok
    ensures s.ok
    decreases |batch|
  {
    hide Drained, ReadAll, PassMade;
    PassStep(s, batch);
    if batch == [] {
      DrainNeedsOk(s.(round := s.round + 1, current := None), false);
    } else {
      if batch[0].ok {
        PassNeedsOk(Drained(RingBegun(s, batch[0]), false), batch[1..]);
        DrainNeedsOk(RingBegun(s, batch[0]), false);
      }
      ReadKeepsError(Drained(s.(current := Some(batch[0].fd)), false), batch[0].events);
      DrainNeedsOk(s.(current := Some(batch[0].fd)), false);
    }
  }

  /** A call that succeeds knows the greatest timestamp of the events it has taken out. */
  lemma LastFinishedIsLatest(s: Sink, call: Call)
    requires KeysMatch(s) && Succeeds(s, call)
    ensures var end := Consumed(s, call); var n := |s.handed|;
      KeysMatch(end) && n <= |end.handed| && end.lastFinished == Latest(end.handed[n..])
  {
    PassesAre(s, call);
    var begun, read, n := Begun(s), AfterReads(s, call), |s.handed|;
    assert UpToDate(begun, n);
    hide PassMade, Drained, AfterPasses, PassesOf, Latest;
    if Forces(call, read.ok) {
      DrainNeedsOk(Detached(read), true);
    }
    assert read.ok;
    var first := PassMade(begun, call.first);
    if read != first {
      PassNeedsOk(first, call.second);
    }
    PassUpToDate(begun, n, call.first);
    if read != first {
      PassUpToDate(first, n, call.second);
    }
    SameUpToDate(read, Detached(read), n);
    if Forces(call, read.ok) {
      DrainUpToDate(Detached(read), n, true);
    }
  }
}
