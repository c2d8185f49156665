/** The round-robin merge of per-CPU rings into timestamp order. */
module Sorter {
  import opened Bits

  /** A queued event without its payload. */
  datatype Entry = Entry(group: int, round: nat, key: int, sequence: nat)

  /** Heap order: timestamp first, then insertion order. */
  predicate Less(a: Entry, b: Entry) {
    a.key < b.key || (a.key == b.key && a.sequence < b.sequence)
  }

  predicate IsFirst(heap: set<Entry>, x: Entry) {
    x in heap && forall y :: y in heap ==> y == x || Less(x, y)
  }

  /** Sequence numbers identify entries. */
  predicate Numbered(heap: set<Entry>) {
    forall x, y :: x in heap && y in heap && x.sequence == y.sequence ==> x == y
  }

  lemma FirstExists(heap: set<Entry>)
    requires heap != {} && Numbered(heap)
    ensures exists x :: IsFirst(heap, x)
  {
    var x :| x in heap;
    var rest := heap - {x};
    if rest == {} {
      assert heap == {x};
      assert IsFirst(heap, x);
    } else {
      FirstExists(rest);
      var m :| IsFirst(rest, m);
      var best := if Less(x, m) then x else m;
      forall y | y in heap
        ensures y == best || Less(best, y)
      {
        assert y == x || y in rest;
      }
      assert IsFirst(heap, best);
    }
  }

  function First(heap: set<Entry>): (x: Entry)
    requires heap != {} && Numbered(heap)
    ensures IsFirst(heap, x)
  {
    FirstExists(heap);
    var x :| IsFirst(heap, x);
    x
  }

  // ------------------------------------------------------------------ the sorter

  datatype State = State(heap: set<Entry>, current: Option<int>, round: nat, next: nat)

  const EMPTY := State({}, None, 0, 0)

  /** The read position has reached group `g` of round `r`. */
  predicate Reached(s: State, r: nat, g: int) {
    r < s.round || (r == s.round && s.current.Some? && g <= s.current.value)
  }

  /** The release rule: one saturating round later, at the same group. */
  predicate Releasable(s: State, x: Entry) {
    Reached(s, if x.round < USIZE_MAX then x.round + 1 else x.round, x.group)
  }

  function Queue(s: State, key: int): (r: State)
    requires s.current.Some?
  {
    s.(heap := s.heap + {Entry(s.current.value, s.round, key, s.next)}, next := s.next + 1)
  }

  predicate Ready(s: State)
    requires Numbered(s.heap)
  {
    s.heap != {} && Releasable(s, First(s.heap))
  }

  function Remove(s: State): (r: State)
    requires Numbered(s.heap) && s.heap != {}
  {
    s.(heap := s.heap - {First(s.heap)})
  }

  // ------------------------------------------------------------------ whole runs

  datatype Op =
    | Begin(group: int)
    | Push(key: int)
    | Finish
    | Drain
    | Pop
    | ForcePop
    | Advance
    | Abort
    | SetRings(rings: set<int>)

  /** A sorter together with what happened to it. `mark[h]` is the number of
      events that were already queued when the last complete read of ring `h`
      started (or when `h` was opened), and `start` the same for the read in
      progress. `complete` are the rings read completely in this attempt at the
      round. */
  datatype Run = Run(
    s: State,
    rings: set<int>, complete: set<int>, mark: map<int, nat>, start: nat,
    queued: set<Entry>, popped: seq<Entry>, forced: set<Entry>)

  const START := Run(EMPTY, {}, {}, map[], 0, {}, [], {})

  /** What the readers of the rings promise about an event they deliver now:
      a ring's own timestamps never decrease, and a ring yields nothing older
      than an event that was queued before its last complete read started. */
  ghost predicate Visible(r: Run, ring: int, key: int) {
    forall x :: x in r.queued && (x.group == ring || (ring in r.mark && x.sequence < r.mark[ring])) ==> x.key <= key
  }

  /** Rings are read in ascending order, each to its end, and a round ends only
      when all were read. Rings come and go between attempts. */
  ghost predicate Enabled(r: Run, op: Op) {
    Feasible(r, op) && (op.Push? ==> Visible(r, r.s.current.value, op.key))
  }

  /** What the reading loop guarantees by itself, whatever the rings deliver. */
  ghost predicate Feasible(r: Run, op: Op) {
    match op
    case Begin(g) =>
      && g in r.rings && g !in r.complete
      && (r.s.current.Some? ==> r.s.current.value <= g)
      && forall h :: h in r.rings && h < g ==> h in r.complete
    case Push(key) => Reading(r)
    case Finish => Reading(r)
    case Drain => true
    case Pop => true
    case ForcePop => true
    case Advance => r.complete == r.rings && r.s.round + 1 < USIZE_MAX
    case Abort => true
    case SetRings(_) => r.s.current == None
  }

  ghost predicate Reading(r: Run) {
    r.s.current.Some? && r.s.current.value !in r.complete
  }

  ghost function Next(r: Run, op: Op): Run
    requires Numbered(r.s.heap) && Feasible(r, op)
  {
    match op
    case Begin(g) => r.(s := r.s.(current := Some(g)), start := r.s.next)
    case Push(key) =>
      var s' := Queue(r.s, key);
      r.(s := s', queued := r.queued + {Entry(r.s.current.value, r.s.round, key, r.s.next)})
    case Finish =>
      var g := r.s.current.value;
      r.(complete := r.complete + {g}, mark := r.mark[g := r.start])
    case Drain => DrainAll(r)
    case Pop => PopOne(r)
    case ForcePop =>
      if r.s.heap == {} then r
      else r.(s := Remove(r.s), forced := r.forced + {First(r.s.heap)})
    case Advance => r.(s := r.s.(round := r.s.round + 1, current := None), complete := {})
    case Abort => r.(s := r.s.(current := None), complete := {})
    case SetRings(rings) => r.(rings := rings, mark := r.mark + map g | g in rings - r.rings :: r.s.next)
  }

  ghost function PopOne(r: Run): Run
    requires Numbered(r.s.heap)
  {
    if Ready(r.s) then r.(s := Remove(r.s), popped := r.popped + [First(r.s.heap)]) else r
  }

  /** Pop until nothing more is released. */
  ghost function DrainAll(r: Run): (d: Run)
    requires Numbered(r.s.heap)
    ensures d == r.(s := d.s, popped := d.popped)
    ensures d.s == r.s.(heap := d.s.heap) && d.s.heap <= r.s.heap && !Ready(d.s)
    decreases |r.s.heap|
  {
    if Ready(r.s) then DrainAll(PopOne(r)) else r
  }

  /** Before a lexicographic read position. */
  predicate NotAfter(r1: nat, g1: int, r2: nat, g2: int) {
    r1 < r2 || (r1 == r2 && g1 <= g2)
  }

  ghost predicate Inv(r: Run) {
    && Numbering(r) && Rounds(r) && Covered(r) && Order(r) && Late(r)
  }

  ghost predicate Numbering(r: Run) {
    && (forall x :: x in r.queued ==> x.sequence < r.s.next && x.round <= r.s.round)
    && Numbered(r.queued)
    && r.s.heap <= r.queued
    && r.s.round < USIZE_MAX
  }

  ghost predicate Rounds(r: Run) {
    && r.rings <= r.mark.Keys && r.complete <= r.rings
    && (forall h :: h in r.rings ==> r.mark[h] <= r.s.next)
    && (r.s.current == None ==> r.complete == {})
    && (r.s.current.Some? ==>
          && (forall h :: h in r.rings && h < r.s.current.value ==> h in r.complete)
          && (forall h :: h in r.complete ==> h <= r.s.current.value))
    && (Reading(r) ==>
          && r.s.current.value in r.rings && r.mark[r.s.current.value] <= r.start <= r.s.next
          && forall x :: x in r.queued && r.start <= x.sequence ==> x.group == r.s.current.value)
  }

  /** Another ring whose reads have passed `x` can no longer yield an older event. */
  ghost predicate Covered(r: Run)
    requires r.rings <= r.mark.Keys
  {
    forall x, h :: x in r.queued && h in r.rings && h != x.group && Passed(r, x, h) ==> x.sequence < r.mark[h]
  }

  ghost predicate Passed(r: Run, x: Entry, h: int) {
    || x.round + 1 < r.s.round
    || (x.round + 1 == r.s.round && (x.group < h || h in r.complete))
    || (x.round == r.s.round && x.group < h && h in r.complete)
  }

  ghost predicate Order(r: Run)
    requires r.rings <= r.mark.Keys
  {
    && (forall x, h :: x in r.popped && h in r.rings && h != x.group ==> x.sequence < r.mark[h])
    && (forall x :: x in r.popped ==> x in r.queued)
    && (forall i, j :: 0 <= i < j < |r.popped| ==> Less(r.popped[i], r.popped[j]))
    && (forall x, y :: x in r.popped && y in r.s.heap ==> Less(x, y))
    && (forall x :: x in r.queued <==> x in r.s.heap || x in r.popped || x in r.forced)
    && r.forced !! r.s.heap
    && (forall x :: x in r.popped ==> x !in r.forced)
  }

  /** An older event that arrived later was read before the younger one's group
      came round again. */
  ghost predicate Late(r: Run) {
    forall x, y :: x in r.queued && y in r.queued && Less(y, x) ==> NotAfter(y.round, y.group, x.round + 1, x.group)
  }

  lemma StartInv()
    ensures Inv(START)
  {
  }

  /** One pop keeps the run in order. */
  lemma PopKeeps(r: Run)
    requires Inv(r)
    ensures Inv(PopOne(r))
  {
    if Ready(r.s) {
      var x := First(r.s.heap);
      forall h | h in r.rings && h != x.group
        ensures x.sequence < r.mark[h]
      {
        assert Passed(r, x, h);
      }
    }
  }

  lemma {:induction false} DrainKeeps(r: Run)
    requires Inv(r)
    ensures Inv(DrainAll(r))
    decreases |r.s.heap|
  {
    if Ready(r.s) {
      PopKeeps(r);
      DrainKeeps(PopOne(r));
    }
  }

  lemma PushKeepsLate(r: Run, key: int)
    requires Inv(r) && Enabled(r, Push(key))
    ensures Late(Next(r, Push(key)))
  {
    hide Order;
    var y := Entry(r.s.current.value, r.s.round, key, r.s.next);
    forall x | x in r.queued && Less(y, x)
      ensures NotAfter(y.round, y.group, x.round + 1, x.group)
    {
      assert !Passed(r, x, y.group);
    }
  }

  lemma PushKeepsOrder(r: Run, key: int)
    requires Inv(r) && Enabled(r, Push(key))
    ensures Order(Next(r, Push(key)))
  {
    hide Covered, Late;
  }

  lemma PushKeepsRounds(r: Run, key: int)
    requires Inv(r) && Enabled(r, Push(key))
    ensures var r' := Next(r, Push(key)); Numbering(r') && Rounds(r') && Covered(r')
  {
    hide Order, Late;
  }

  lemma PushKeeps(r: Run, key: int)
    requires Inv(r) && Enabled(r, Push(key))
    ensures Inv(Next(r, Push(key)))
  {
    PushKeepsLate(r, key);
    PushKeepsOrder(r, key);
    PushKeepsRounds(r, key);
    hide Order, Late, Covered, Rounds, Numbering;
  }

  lemma BeginKeeps(r: Run, g: int)
    requires Inv(r) && Enabled(r, Begin(g))
    ensures Inv(Next(r, Begin(g)))
  {
  }

  lemma FinishKeeps(r: Run)
    requires Inv(r) && Enabled(r, Finish)
    ensures Inv(Next(r, Finish))
  {
  }

  lemma ForceKeeps(r: Run)
    requires Inv(r) && Enabled(r, ForcePop)
    ensures Inv(Next(r, ForcePop))
  {
  }

  lemma AdvanceKeeps(r: Run)
    requires Inv(r) && Enabled(r, Advance)
    ensures Inv(Next(r, Advance))
  {
  }

  lemma AbortKeeps(r: Run)
    requires Inv(r) && Enabled(r, Abort)
    ensures Inv(Next(r, Abort))
  {
  }

  lemma SetRingsKeeps(r: Run, rings: set<int>)
    requires Inv(r) && Enabled(r, SetRings(rings))
    ensures Inv(Next(r, SetRings(rings)))
  {
  }

  /** Every step keeps the invariant. */
  lemma StepKeeps(r: Run, op: Op)
    requires Inv(r) && Enabled(r, op)
    ensures Inv(Next(r, op))
  {
    assert Numbered(r.s.heap) && Feasible(r, op);
    hide Inv, Enabled, Feasible;
    match op
    case Begin(g) => BeginKeeps(r, g);
    case Push(key) => PushKeeps(r, key);
    case Finish => FinishKeeps(r);
    case Drain => DrainKeeps(r);
    case Pop => PopKeeps(r);
    case ForcePop => ForceKeeps(r);
    case Advance => AdvanceKeeps(r);
    case Abort => AbortKeeps(r);
    case SetRings(rings) => SetRingsKeeps(r, rings);
  }

  ghost predicate Admissible(r: Run, ops: seq<Op>)
    requires Inv(r)
    decreases |ops|
  {
    ops == [] ||
    (Enabled(r, ops[0]) && (StepKeeps(r, ops[0]); Admissible(Next(r, ops[0]), ops[1..])))
  }

  ghost function Exec(r: Run, ops: seq<Op>): (e: Run)
    requires Inv(r) && Admissible(r, ops)
    ensures Inv(e)
    decreases |ops|
  {
    if ops == [] then r
    else
      StepKeeps(r, ops[0]);
      Exec(Next(r, ops[0]), ops[1..])
  }

  /** Everything `pop` returns over a whole run, aborted rounds and forced pops
      included, is strictly ordered by timestamp and insertion sequence. */
  lemma PopsInOrder(ops: seq<Op>)
    requires Inv(START) && Admissible(START, ops)
    ensures var out := Exec(START, ops).popped;
      forall i, j :: 0 <= i < j < |out| ==> Less(out[i], out[j])
  {
    var e := Exec(START, ops);
    assert Inv(e);
  }

  /** Every queued event is in exactly one place: waiting, popped once, or forced out. */
  lemma NothingLost(ops: seq<Op>)
    requires Inv(START) && Admissible(START, ops)
    ensures var e := Exec(START, ops);
      && e.queued == e.s.heap + (set x | x in e.popped) + e.forced
      && e.s.heap !! e.forced && e.s.heap !! (set x | x in e.popped) && e.forced !! (set x | x in e.popped)
      && |e.queued| == |e.s.heap| + |e.popped| + |e.forced|
  {
    var e := Exec(START, ops);
    var out := set x | x in e.popped;
    SizeOfDistinct(e.popped);
    assert forall x :: x in out && x in e.s.heap ==> Less(x, x);
    assert e.queued == e.s.heap + out + e.forced;
  }

  lemma {:induction false} SizeOfDistinct(out: seq<Entry>)
    requires forall i, j :: 0 <= i < j < |out| ==> Less(out[i], out[j])
    ensures |set x | x in out| == |out|
  {
    if out != [] {
      var init, last := out[..|out| - 1], out[|out| - 1];
      SizeOfDistinct(init);
      assert (set x | x in out) == (set x | x in init) + {last};
      assert last !in init;
    }
  }

  /** If the head of the queue is held back, then nothing is still waiting whose
      own group has come round for the second time since it was queued. */
  lemma BoundedDelay(r: Run, x: Entry)
    requires Inv(r) && x in r.s.heap
    requires Reached(r.s, x.round + 2, x.group)
    ensures Ready(r.s)
  {
    var m := First(r.s.heap);
    if m != x {
      assert Less(m, x);
      assert NotAfter(m.round, m.group, x.round + 1, x.group);
    }
  }

  /** A run that need not keep the readers' promise. */
  ghost predicate Playable(r: Run, ops: seq<Op>)
    decreases |ops|
  {
    Numbered(r.s.heap) && (ops != [] ==> Feasible(r, ops[0]) && Playable(Next(r, ops[0]), ops[1..]))
  }

  ghost function Play(r: Run, ops: seq<Op>): Run
    requires Playable(r, ops)
    decreases |ops|
  {
    if ops == [] then r else Play(Next(r, ops[0]), ops[1..])
  }

  lemma PlayOne(r: Run, op: Op, rest: seq<Op>, r': Run)
    requires Numbered(r.s.heap) && Feasible(r, op) && r' == Next(r, op) && Playable(r', rest)
    ensures Playable(r, [op] + rest) && Play(r, [op] + rest) == Play(r', rest)
  {
    assert ([op] + rest)[1..] == rest;
  }

  lemma PlayNothing(r: Run)
    requires r.s.heap == {}
    ensures Playable(r, []) && Play(r, []) == r
  {
  }

  lemma OnlyEntry(s: State, x: Entry)
    requires s.heap == {x}
    ensures Numbered(s.heap) && First(s.heap) == x
  {
    assert IsFirst(s.heap, x);
  }

  /** Without the readers' promise the order is lost: one ring delivers timestamp 20,
      it is released in the next round, and then the ring delivers timestamp 10. Every
      other operation of this run is the reading loop's own. */
  lemma StaleEventBreaksOrder()
    ensures exists ops ::
      && Playable(START, ops)
      && var out := Play(START, ops).popped; |out| == 2 && Less(out[1], out[0])
  {
    hide Playable, Play;
    var again := [Finish, Advance, Begin(1), Pop];
    var ops := [SetRings({1}), Begin(1), Push(20)] + again + ([Push(10)] + again);
    var r0 := Next(Next(START, SetRings({1})), Begin(1));
    assert r0.s == State({}, Some(1), 0, 0) && r0.rings == {1} && r0.complete == {} && r0.popped == [];
    var old20, new10 := Entry(1, 0, 20, 0), Entry(1, 1, 10, 1);
    var r1 := Next(r0, Push(20));
    assert r1.s.heap == {old20};
    var r2 := NextRound(r1, old20, [Push(10)] + again);
    var r3 := Next(r2, Push(10));
    assert r3.s.heap == {new10};
    var r4 := NextRound(r3, new10, []);
    PlayNothing(r4);
    assert again + [] == again;
    PlayOne(r2, Push(10), again, r3);
    PlayOne(r0, Push(20), again + ([Push(10)] + again), r1);
    PlayOne(Next(START, SetRings({1})), Begin(1), [Push(20)] + (again + ([Push(10)] + again)), r0);
    PlayOne(START, SetRings({1}), [Begin(1)] + ([Push(20)] + (again + ([Push(10)] + again))), Next(START, SetRings({1})));
    assert ops == [SetRings({1})] + ([Begin(1)] + ([Push(20)] + (again + ([Push(10)] + again))));
    assert Play(START, ops).popped == [old20, new10];
  }

  /** Ring 1 alone finishes its read, the round advances, and its only event is released. */
  lemma NextRound(r: Run, x: Entry, rest: seq<Op>) returns (r': Run)
    requires r.s.heap == {x} && r.s.current == Some(1) && r.rings == {1} && r.complete == {}
    requires x.group == 1 && x.round == r.s.round && r.s.round + 1 < USIZE_MAX
    ensures r'.s == State({}, Some(1), r.s.round + 1, r.s.next) && r'.popped == r.popped + [x]
    ensures r'.rings == {1} && r'.complete == {}
    ensures Playable(r', rest) ==>
      var ops := [Finish, Advance, Begin(1), Pop] + rest;
      Playable(r, ops) && Play(r, ops) == Play(r', rest)
  {
    OnlyEntry(r.s, x);
    var r1 := Next(r, Finish);
    assert r1.complete == r1.rings;
    var r2 := Next(r1, Advance);
    var r3 := Next(r2, Begin(1));
    assert r3.s == State({x}, Some(1), r.s.round + 1, r.s.next);
    OnlyEntry(r3.s, x);
    r' := Next(r3, Pop);
    assert r'.s.heap == {};
    if Playable(r', rest) {
      PlayOne(r3, Pop, rest, r');
      PlayOne(r2, Begin(1), [Pop] + rest, r3);
      PlayOne(r1, Advance, [Begin(1)] + ([Pop] + rest), r2);
      PlayOne(r, Finish, [Advance] + ([Begin(1)] + ([Pop] + rest)), r1);
      assert [Finish, Advance, Begin(1), Pop] + rest == [Finish] + ([Advance] + ([Begin(1)] + ([Pop] + rest)));
    }
  }

  // ----------------------------------------------------------- the mutable sorter

  class EventSorter<V> {
    var heap: map<Entry, V>
    var currentGroup: Option<int>
    var round: nat
    var nextSequence: nat

    ghost predicate Valid()
      reads this
    {
      && Numbered(heap.Keys)
      && (forall x :: x in heap ==> x.sequence < nextSequence && x.round <= round)
      && round <= USIZE_MAX
    }

    ghost function Abs(): State
      reads this
    {
      State(heap.Keys, currentGroup, round, nextSequence)
    }

    constructor ()
      ensures Valid() && Abs() == EMPTY
    {
      heap, currentGroup, round, nextSequence := map[], None, 0, 0;
    }

    predicate HasMore()
      reads this
    {
      heap != map[]
    }

    method AdvanceRound()
      requires Valid() && round < USIZE_MAX
      modifies this
      ensures Valid() && heap == old(heap)
      ensures Abs() == old(Abs()).(round := old(round) + 1, current := None)
    {
      round := round + 1;
      currentGroup := None;
    }

    method AbortRound()
      requires Valid()
      modifies this
      ensures Valid() && heap == old(heap)
      ensures Abs() == old(Abs()).(current := None)
    {
      currentGroup := None;
    }

    method BeginGroup(group: int)
      requires Valid() && (currentGroup.Some? ==> currentGroup.value <= group)
      modifies this
      ensures Valid() && heap == old(heap)
      ensures Abs() == old(Abs()).(current := Some(group))
    {
      currentGroup := Some(group);
    }

    /** Release the first event if the rule allows it. */
    method Pop() returns (v: Option<V>)
      requires Valid()
      modifies this
      ensures Valid()
      ensures if old(Ready(Abs())) then
          var x := First(old(heap).Keys);
          Abs() == Remove(old(Abs())) && v == Some(old(heap)[x]) && heap == old(heap) - {x}
        else
          v == None && heap == old(heap) && Abs() == old(Abs())
    {
      if heap == map[] {
        return None;
      }
      var event := First(heap.Keys);
      var due := if event.round < USIZE_MAX then event.round + 1 else event.round;
      if round < due || (round == due && (currentGroup == None || currentGroup.value < event.group)) {
        return None;
      }
      v := Some(heap[event]);
      heap := heap - {event};
    }

    method ForcePop() returns (v: Option<V>)
      requires Valid()
      modifies this
      ensures Valid()
      ensures if old(heap) != map[] then
          var x := First(old(heap).Keys);
          Abs() == Remove(old(Abs())) && v == Some(old(heap)[x]) && heap == old(heap) - {x}
        else
          v == None && heap == old(heap) && Abs() == old(Abs())
    {
      if heap == map[] {
        return None;
      }
      var event := First(heap.Keys);
      v := Some(heap[event]);
      heap := heap - {event};
    }

    /** Take the first event, if the rule allows it or is overruled. */
    method Take(force: bool) returns (v: Option<V>)
      requires Valid()
      modifies this
      ensures Valid()
      ensures v.Some? <==> old(heap) != map[] && (force || old(Ready(Abs())))
      ensures v.Some? ==>
        var x := First(old(heap).Keys);
        v == Some(old(heap)[x]) && heap == old(heap) - {x} && Abs() == Remove(old(Abs()))
      ensures v == None ==> heap == old(heap) && Abs() == old(Abs())
    {
      hide First, Releasable;
      if force {
        v := ForcePop();
      } else {
        v := Pop();
      }
    }

    /** Rewrite every queued value; the queue order does not depend on values. */
    method VisitValuesMut(visitor: V -> V)
      requires Valid()
      modifies this
      ensures Valid() && Abs() == old(Abs())
      ensures forall x :: x in heap ==> heap[x] == visitor(old(heap)[x])
    {
      heap := map x | x in heap :: visitor(heap[x]);
      assert heap.Keys == old(heap).Keys;
    }

    /** Rewrite one queued value in place, as a visit does with each of them. */
    method ReplaceValue(x: Entry, value: V)
      requires Valid() && x in heap
      modifies this`heap
      ensures Valid() && Abs() == old(Abs()) && heap == old(heap)[x := value]
    {
      heap := heap[x := value];
      assert heap.Keys == old(heap).Keys;
    }

    method PushCurrentGroup(key: int, value: V)
      requires Valid() && currentGroup.Some? && nextSequence < U64_LIMIT - 1
      modifies this
      ensures Valid() && Abs() == Queue(old(Abs()), key)
      ensures heap == old(heap)[Entry(old(currentGroup).value, round, key, old(nextSequence)) := value]
    {
      var sequence := nextSequence;
      nextSequence := nextSequence + 1;
      heap := heap[Entry(currentGroup.value, round, key, sequence) := value];
    }
  }
}
