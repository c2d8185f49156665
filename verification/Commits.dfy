/** The release bookkeeping of one perf ring: records complete in any order,
    and the tail may only move over a contiguous completed prefix. */
module Commits {

  /** The positions of a half-open range. */
  ghost function Span(first: nat, limit: nat): (r: set<nat>)
    ensures forall p :: p in r <==> first <= p < limit
    decreases limit - first
  {
    if first < limit then {first} + Span(first + 1, limit) else {}
  }

  /** `committed` and `pending` describe exactly the completed positions `done`
      at or after `base`: `committed` is the first incomplete one, and `pending`
      holds the maximal completed runs beyond it, each as start to end. */
  ghost predicate Represents(base: nat, done: set<nat>, committed: nat, pending: map<nat, nat>) {
    && base <= committed
    && (forall p: nat :: base <= p < committed ==> p in done)
    && committed !in done
    && (forall s {:trigger pending[s]} :: s in pending ==> IsRun(done, committed, s, pending[s]))
    && (forall p :: p in done ==> base <= p)
    && (forall p {:trigger InPending(pending, p)} :: p in done ==> p < committed || InPending(pending, p))
  }

  ghost predicate IsRun(done: set<nat>, committed: nat, start: nat, end: nat) {
    && committed < start < end
    && (forall p :: start <= p < end ==> p in done)
    && start - 1 !in done
    && end !in done
  }

  ghost predicate InPending(pending: map<nat, nat>, p: nat) {
    exists s :: s in pending && s <= p < pending[s]
  }

  /** The bookkeeping depends only on which positions are complete, never on
      the order in which they completed. */
  lemma OrderIrrelevant(base: nat, done: set<nat>, c1: nat, p1: map<nat, nat>, c2: nat, p2: map<nat, nat>)
    requires Represents(base, done, c1, p1) && Represents(base, done, c2, p2)
    ensures c1 == c2 && p1 == p2
  {
    SameRuns(base, done, c1, p1, p2);
    SameRuns(base, done, c1, p2, p1);
    assert p1.Keys == p2.Keys;
  }

  lemma SameRuns(base: nat, done: set<nat>, c: nat, p1: map<nat, nat>, p2: map<nat, nat>)
    requires Represents(base, done, c, p1) && Represents(base, done, c, p2)
    ensures forall s :: s in p1 ==> s in p2 && p2[s] == p1[s]
  {
    forall s | s in p1
      ensures s in p2 && p2[s] == p1[s]
    {
      assert IsRun(done, c, s, p1[s]);
      assert s in done && InPending(p2, s);
      var t :| t in p2 && t <= s < p2[t];
      assert IsRun(done, c, t, p2[t]);
      assert t == s;
    }
  }

  /** Once everything read is complete, everything is committed. */
  lemma NothingPendingWhenComplete(base: nat, end: nat, committed: nat, pending: map<nat, nat>)
    requires base <= end
    requires Represents(base, Span(base, end), committed, pending)
    ensures committed == end && pending == map[]
  {
    assert committed == end by { assert end !in Span(base, end); }
    assert forall s :: s in pending ==> s in Span(base, end);
    assert pending.Keys == {};
  }

  /** Greatest key of an ordered map at or below `limit`, or below every bound. */
  function LastAtMost(m: map<nat, nat>, limit: nat): (r: int)
    ensures r == -1 ==> forall k :: k in m ==> limit < k
    ensures r != -1 ==> 0 <= r <= limit && r in m && forall k :: k in m && k <= limit ==> k <= r
  {
    if limit in m then limit
    else if limit == 0 then -1
    else LastAtMost(m, limit - 1)
  }

  /** Least key of an ordered map strictly above `limit`, or -1. */
  function FirstAbove(m: map<nat, nat>, limit: nat): (r: int)
    ensures r == -1 ==> forall k :: k in m ==> k <= limit
    ensures r != -1 ==> limit < r && r in m && forall k :: k in m && limit < k ==> r <= k
    decreases m.Keys
  {
    var above := set k | k in m && limit < k;
    if above == {} then
      assert forall k :: k in m && limit < k ==> k in above;
      -1
    else
      var r := LeastIn(above);
      assert forall k :: k in m && limit < k ==> k in above;
      r
  }

  function LeastIn(s: set<nat>): (r: nat)
    requires s != {}
    ensures r in s && forall k :: k in s ==> r <= k
  {
    var x :| x in s;
    LeastExists(s, x);
    var r :| r in s && forall k :: k in s ==> r <= k;
    r
  }

  lemma LeastExists(s: set<nat>, x: nat)
    requires x in s
    ensures exists r :: r in s && forall k :: k in s ==> r <= k
    decreases x
  {
    if y :| y in s && y < x {
      LeastExists(s, y);
    } else {
      assert forall k :: k in s ==> x <= k;
    }
  }

  /** `pending` with the run `from..limit` added, joined to the runs it touches. */
  function Merged(pending: map<nat, nat>, from: nat, limit: nat): (r: map<nat, nat>) {
    var previous := LastAtMost(pending, from);
    var start := if previous != -1 && pending[previous] == from then previous else from;
    var next := FirstAbove(pending, start);
    if next != -1 && limit == next
    then (pending - {next})[start := pending[next]]
    else pending[start := limit]
  }

  ghost function MergeStart(pending: map<nat, nat>, from: nat): nat {
    var previous := LastAtMost(pending, from);
    if previous != -1 && pending[previous] == from then previous else from
  }

  /** A completed run lies wholly before or wholly after a range that is still incomplete. */
  lemma RunsAvoid(done: set<nat>, committed: nat, start: nat, end: nat, from: nat, limit: nat)
    requires IsRun(done, committed, start, end) && from < limit && done !! Span(from, limit)
    ensures end <= from || limit <= start
  {
    assert from in Span(from, limit) && (from <= start < limit ==> start in Span(from, limit));
  }

  lemma RunEndingAt(base: nat, done: set<nat>, committed: nat, pending: map<nat, nat>, s: nat, from: nat)
    requires Represents(base, done, committed, pending) && from !in done
    requires s in pending && pending[s] == from
    ensures s == LastAtMost(pending, from)
  {
    var previous := LastAtMost(pending, from);
    assert IsRun(done, committed, s, from) && IsRun(done, committed, previous, pending[previous]);
    assert s < previous ==> previous - 1 in done;
  }

  lemma RunStartingAt(base: nat, done: set<nat>, committed: nat, pending: map<nat, nat>, from: nat, limit: nat)
    requires Represents(base, done, committed, pending)
    requires committed < from < limit && done !! Span(from, limit)
    ensures limit in pending <==> FirstAbove(pending, MergeStart(pending, from)) == limit
  {
    var start := MergeStart(pending, from);
    var next := FirstAbove(pending, start);
    if limit in pending {
      assert IsRun(done, committed, next, pending[next]);
      RunsAvoid(done, committed, next, pending[next], from, limit);
      assert next < limit ==> next <= from;
    }
  }

  ghost function MergeEnd(pending: map<nat, nat>, limit: nat): nat {
    if limit in pending then pending[limit] else limit
  }

  lemma MergedRepresents(base: nat, done: set<nat>, committed: nat, pending: map<nat, nat>, from: nat, limit: nat)
    requires Represents(base, done, committed, pending)
    requires committed < from < limit && done !! Span(from, limit)
    ensures Represents(base, done + Span(from, limit), committed, Merged(pending, from, limit))
  {
    var r := Merged(pending, from, limit);
    MergedShape(base, done, committed, pending, from, limit);
    JoinedRun(base, done, committed, pending, from, limit);
    hide Merged, MergeStart, MergeEnd, IsRun, InPending;
    forall s | s in r && s != MergeStart(pending, from)
      ensures IsRun(done + Span(from, limit), committed, s, r[s])
    {
      OtherRun(base, done, committed, pending, from, limit, s);
    }
    forall p | p in done + Span(from, limit) && committed <= p
      ensures InPending(r, p)
    {
      StillCovered(base, done, committed, pending, from, limit, r, p);
    }
  }

  lemma MergedShape(base: nat, done: set<nat>, committed: nat, pending: map<nat, nat>, from: nat, limit: nat)
    requires Represents(base, done, committed, pending)
    requires committed < from < limit && done !! Span(from, limit)
    ensures Merged(pending, from, limit) == (pending - {limit})[MergeStart(pending, from) := MergeEnd(pending, limit)]
  {
    RunStartingAt(base, done, committed, pending, from, limit);
    hide Represents;
    if limit !in pending {
      assert pending - {limit} == pending;
    }
  }

  lemma OtherRun(base: nat, done: set<nat>, committed: nat, pending: map<nat, nat>, from: nat, limit: nat, s: nat)
    requires Represents(base, done, committed, pending)
    requires committed < from < limit && done !! Span(from, limit)
    requires s in pending && s != limit && s != MergeStart(pending, from)
    ensures IsRun(done + Span(from, limit), committed, s, pending[s])
  {
    assert IsRun(done, committed, s, pending[s]);
    RunsAvoid(done, committed, s, pending[s], from, limit);
    assert from !in done by { assert from in Span(from, limit); }
    if pending[s] == from { RunEndingAt(base, done, committed, pending, s, from); }
  }

  lemma StillCovered(base: nat, done: set<nat>, committed: nat, pending: map<nat, nat>, from: nat, limit: nat,
                     r: map<nat, nat>, p: nat)
    requires Represents(base, done, committed, pending)
    requires committed < from < limit && done !! Span(from, limit)
    requires r == (pending - {limit})[MergeStart(pending, from) := MergeEnd(pending, limit)]
    requires p in done + Span(from, limit) && committed <= p
    ensures InPending(r, p)
  {
    var start, end := MergeStart(pending, from), MergeEnd(pending, limit);
    assert start <= from && (limit in pending ==> IsRun(done, committed, limit, pending[limit]));
    if start <= p < end {
      assert start in r;
    } else {
      assert InPending(pending, p);
      var s :| s in pending && s <= p < pending[s];
      assert s != limit && s != start;
      assert s in r;
    }
  }

  lemma JoinedRun(base: nat, done: set<nat>, committed: nat, pending: map<nat, nat>, from: nat, limit: nat)
    requires Represents(base, done, committed, pending)
    requires committed < from < limit && done !! Span(from, limit)
    ensures IsRun(done + Span(from, limit), committed, MergeStart(pending, from), MergeEnd(pending, limit))
  {
    var start := MergeStart(pending, from);
    assert from !in done by { assert from in Span(from, limit); }
    if limit in pending {
      assert IsRun(done, committed, limit, pending[limit]);
    } else if limit in done {
      assert InPending(pending, limit);
      var s :| s in pending && s <= limit < pending[s];
      assert IsRun(done, committed, s, pending[s]);
      RunsAvoid(done, committed, s, pending[s], from, limit);
      assert false;
    }
    if start != from {
      assert IsRun(done, committed, start, from);
    } else if from - 1 in done {
      assert InPending(pending, from - 1);
      var s :| s in pending && s <= from - 1 < pending[s];
      assert IsRun(done, committed, s, pending[s]);
      RunEndingAt(base, done, committed, pending, s, from);
      assert false;
    }
  }

  /** What holds while the committed position walks over adjoining runs. */
  ghost predicate Walking(base: nat, done: set<nat>, committed: nat, pending: map<nat, nat>) {
    && base <= committed
    && (forall p: nat :: base <= p < committed ==> p in done)
    && (forall s {:trigger pending[s]} :: s in pending ==> RunFrom(done, committed, s, pending[s]))
    && (forall p :: p in done ==> base <= p)
    && (forall p {:trigger InPending(pending, p)} :: p in done ==> p < committed || InPending(pending, p))
  }

  lemma WalkStarts(base: nat, done: set<nat>, committed: nat, pending: map<nat, nat>, limit: nat)
    requires Represents(base, done, committed, pending)
    requires committed < limit && done !! Span(committed, limit)
    ensures Walking(base, done + Span(committed, limit), limit, pending)
  {
    var all := done + Span(committed, limit);
    forall s | s in pending
      ensures RunFrom(all, limit, s, pending[s])
    {
      assert IsRun(done, committed, s, pending[s]);
      RunsAvoid(done, committed, s, pending[s], committed, limit);
    }
    assert forall p {:trigger InPending(pending, p)} :: p in all ==> p in done || p < limit;
  }

  lemma WalkContinues(base: nat, done: set<nat>, committed: nat, pending: map<nat, nat>)
    requires Walking(base, done, committed, pending) && committed in pending
    ensures Walking(base, done, pending[committed], pending - {committed})
    ensures committed < pending[committed]
  {
    var next := pending[committed];
    var rest := pending - {committed};
    assert RunFrom(done, committed, committed, next);
    forall s | s in rest
      ensures RunFrom(done, next, s, rest[s])
    {
      assert RunFrom(done, committed, s, pending[s]);
      assert next <= s;
    }
    forall p | p in done && next <= p
      ensures InPending(rest, p)
    {
      assert InPending(pending, p);
      var s :| s in pending && s <= p < pending[s];
      assert s in rest;
    }
  }

  lemma WalkEnds(base: nat, done: set<nat>, committed: nat, pending: map<nat, nat>)
    requires Walking(base, done, committed, pending) && committed !in pending
    ensures Represents(base, done, committed, pending)
  {
    assert forall s :: s in pending ==> RunFrom(done, committed, s, pending[s]);
    assert committed in done ==> InPending(pending, committed);
  }

  /** A completed run that starts no earlier than `committed` and may touch it. */
  ghost predicate RunFrom(done: set<nat>, committed: nat, start: nat, end: nat) {
    && committed <= start < end
    && (forall p :: start <= p < end ==> p in done)
    && (start == committed || start - 1 !in done)
    && end !in done
  }

  class CommitState {
    var committed: nat
    var pending: map<nat, nat>
    ghost const base: nat
    ghost var done: set<nat>

    ghost predicate Valid()
      reads this
    {
      Represents(base, done, committed, pending)
    }

    constructor (committed: nat)
      ensures Valid()
      ensures this.committed == committed && base == committed && done == {} && pending == map[]
    {
      this.committed := committed;
      this.base := committed;
      pending := map[];
      done := {};
    }

    /** Record `from..limit` as complete; true when the tail moves. */
    method Complete(from: nat, limit: nat) returns (moved: bool)
      requires Valid()
      requires committed <= from < limit && done !! Span(from, limit)
      modifies this
      ensures Valid()
      ensures done == old(done) + Span(from, limit)
      ensures moved <==> from == old(committed)
      ensures if moved then limit <= committed else committed == old(committed)
    {
      hide Represents, Walking, Merged, Span;
      ghost var was := done;
      done := done + Span(from, limit);
      if from == committed {
        WalkStarts(base, was, committed, pending, limit);
        committed := limit;
        while committed in pending
          invariant Walking(base, done, committed, pending)
          invariant limit <= committed && done == was + Span(from, limit)
          decreases |pending|
        {
          WalkContinues(base, done, committed, pending);
          var next := pending[committed];
          pending := pending - {committed};
          committed := next;
        }
        WalkEnds(base, done, committed, pending);
        return true;
      }
      MergedRepresents(base, was, committed, pending, from, limit);
      pending := Merged(pending, from, limit);
      return false;
    }
  }
}
