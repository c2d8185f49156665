/** Closing the gaps in an array of which only some ranges are still in use. */
module Compaction {
  import opened Bits

  datatype Range = Range(start: nat, end: nat)

  predicate Separate(a: Range, b: Range) {
    a.end <= b.start || b.end <= a.start
  }

  /** In bounds, pairwise disjoint, and sorted by start (empty ranges may tie). */
  predicate Layout(ranges: seq<Range>, n: nat) {
    && (forall i :: 0 <= i < |ranges| ==> ranges[i].start <= ranges[i].end <= n)
    && (forall i, j :: 0 <= i < j < |ranges| ==> ranges[i].start <= ranges[j].start && Separate(ranges[i], ranges[j]))
  }

  /** The part of a range below `limit`. */
  function Clip<T>(values: seq<T>, r: Range, limit: nat): (p: seq<T>)
    requires r.start <= r.end <= |values|
  {
    values[r.start..Max(r.start, Min(r.end, limit))]
  }

  /** Reference: the pieces below `limit`, one after the other. */
  function Gather<T>(values: seq<T>, ranges: seq<Range>, limit: nat): (r: seq<T>)
    requires Layout(ranges, |values|)
  {
    if ranges == [] then []
    else Clip(values, ranges[0], limit) + Gather(values, ranges[1..], limit)
  }

  lemma GatherCons<T>(values: seq<T>, ranges: seq<Range>, limit: nat)
    requires Layout(ranges, |values|) && ranges != []
    ensures ranges[0].start <= ranges[0].end <= |values| && Layout(ranges[1..], |values|)
    ensures Gather(values, ranges, limit) == Clip(values, ranges[0], limit) + Gather(values, ranges[1..], limit)
  {
  }

  predicate Contains(r: Range, i: nat) {
    r.start <= i < r.end
  }

  lemma {:induction false} GatherNothing<T>(values: seq<T>, ranges: seq<Range>, limit: nat)
    requires Layout(ranges, |values|)
    requires forall r :: r in ranges ==> limit <= r.start || r.start == r.end
    ensures Gather(values, ranges, limit) == []
  {
    if ranges != [] {
      assert ranges[0] in ranges;
      GatherNothing(values, ranges[1..], limit);
    }
  }

  /** Some range contains position `i`. */
  predicate Hit(ranges: seq<Range>, i: nat) {
    ranges != [] && (Contains(ranges[0], i) || Hit(ranges[1..], i))
  }

  lemma {:induction false} HitMeansContained(ranges: seq<Range>, i: nat)
    ensures Hit(ranges, i) <==> exists j :: 0 <= j < |ranges| && Contains(ranges[j], i)
  {
    if ranges != [] {
      HitMeansContained(ranges[1..], i);
      if j :| 0 < j < |ranges| && Contains(ranges[j], i) {
        assert Contains(ranges[1..][j - 1], i);
      }
    }
  }

  /** After a range that contains `i`, sorted and disjoint ranges start later or are empty. */
  lemma RestIsLater(ranges: seq<Range>, n: nat, i: nat)
    requires Layout(ranges, n) && ranges != [] && Contains(ranges[0], i)
    ensures forall r :: r in ranges[1..] ==> i + 1 <= r.start || r.start == r.end
  {
    forall r | r in ranges[1..]
      ensures i + 1 <= r.start || r.start == r.end
    {
      var j :| 0 <= j < |ranges[1..]| && ranges[1..][j] == r;
      assert ranges[j + 1] == r && Separate(ranges[0], ranges[j + 1]);
    }
  }

  lemma ClipOneMore<T>(values: seq<T>, r: Range, i: nat)
    requires r.start <= r.end <= |values| && i < |values|
    ensures Clip(values, r, i + 1) == Clip(values, r, i) + (if Contains(r, i) then [values[i]] else [])
  {
  }

  lemma GatherEmpty<T>(values: seq<T>, limit: nat)
    ensures Gather(values, [], limit) == []
  {
  }

  lemma {:induction false} GatherOneMore<T>(values: seq<T>, ranges: seq<Range>, i: nat)
    requires Layout(ranges, |values|) && i < |values|
    ensures Gather(values, ranges, i + 1)
         == Gather(values, ranges, i) + (if Hit(ranges, i) then [values[i]] else [])
  {
    hide Layout, Gather, Clip;
    if ranges == [] {
      GatherEmpty(values, i);
      GatherEmpty(values, i + 1);
    } else {
      var first, rest := ranges[0], ranges[1..];
      GatherCons(values, ranges, i);
      GatherCons(values, ranges, i + 1);
      ClipOneMore(values, first, i);
      if Contains(first, i) {
        RestIsLater(ranges, |values|, i);
        GatherNothing(values, rest, i);
        GatherNothing(values, rest, i + 1);
        EmptyTail(Clip(values, first, i));
        EmptyTail(Clip(values, first, i + 1));
      } else {
        EmptyTail(Clip(values, first, i));
        GatherOneMore(values, rest, i);
        ConcatAssociative(Clip(values, first, i), Gather(values, rest, i), if Hit(rest, i) then [values[i]] else []);
      }
    }
  }

  /** Keep the elements that lie in some range, in one pass over the values with
      one cursor into the sorted ranges. */
  method RetainRanges<T>(values: seq<T>, ranges: seq<Range>) returns (kept: seq<T>)
    requires Layout(ranges, |values|)
    ensures kept == Gather(values, ranges, |values|)
  {
    hide Layout, Gather, Hit;
    kept := [];
    var cursor := 0;
    GatherAtZero(values, ranges);
    for oldIndex := 0 to |values|
      invariant cursor <= |ranges|
      invariant forall j :: 0 <= j < cursor ==> ranges[j].end <= oldIndex
      invariant kept == Gather(values, ranges, oldIndex)
    {
      while cursor < |ranges| && oldIndex >= ranges[cursor].end
        invariant cursor <= |ranges|
        invariant forall j :: 0 <= j < cursor ==> ranges[j].end <= oldIndex
      {
        cursor := cursor + 1;
      }
      GatherOneMore(values, ranges, oldIndex);
      CursorDecides(ranges, |values|, cursor, oldIndex);
      if cursor < |ranges| && Contains(ranges[cursor], oldIndex) {
        kept := kept + [values[oldIndex]];
      }
    }
  }

  /** The first range that ends after `i` tells whether any range contains `i`. */
  lemma CursorDecides(ranges: seq<Range>, n: nat, cursor: nat, i: nat)
    requires Layout(ranges, n) && cursor <= |ranges|
    requires forall j :: 0 <= j < cursor ==> ranges[j].end <= i
    requires cursor < |ranges| ==> i < ranges[cursor].end
    ensures Hit(ranges, i) <==> cursor < |ranges| && Contains(ranges[cursor], i)
  {
    HitMeansContained(ranges, i);
  }

  lemma {:induction false} GatherAtZero<T>(values: seq<T>, ranges: seq<Range>)
    requires Layout(ranges, |values|)
    ensures Gather(values, ranges, 0) == []
  {
    if ranges != [] {
      GatherAtZero(values, ranges[1..]);
    }
  }

  // ---------------------------------------------------------------- relocation

  function Len(r: Range): (n: nat) {
    if r.start <= r.end then r.end - r.start else 0
  }

  function Total(ranges: seq<Range>): (n: nat) {
    if ranges == [] then 0 else Len(ranges[0]) + Total(ranges[1..])
  }

  /** A range moved to `next`. */
  function Moved(r: Range, next: nat): (m: Range) {
    Range(next, next + Len(r))
  }

  /** Where the `k`-th range goes: after everything before it. */
  function Offset(ranges: seq<Range>, k: nat): (n: nat)
    requires k <= |ranges|
  {
    if k == 0 then 0 else Len(ranges[0]) + Offset(ranges[1..], k - 1)
  }

  lemma {:induction false} OffsetNext(ranges: seq<Range>, k: nat)
    requires k < |ranges|
    ensures Offset(ranges, k + 1) == Offset(ranges, k) + Len(ranges[k])
  {
    if k > 0 {
      OffsetNext(ranges[1..], k - 1);
    }
  }

  lemma {:induction false} OffsetOfAll(ranges: seq<Range>)
    ensures Offset(ranges, |ranges|) == Total(ranges)
  {
    if ranges != [] {
      OffsetOfAll(ranges[1..]);
    }
  }

  /** The gathered array holds every piece at its new place. */
  lemma {:induction false} GatheredPiece<T>(values: seq<T>, ranges: seq<Range>, k: nat)
    requires Layout(ranges, |values|) && k < |ranges|
    ensures ranges[k].start <= ranges[k].end <= |values|
    ensures Offset(ranges, k) + Len(ranges[k]) <= |Gather(values, ranges, |values|)|
    ensures Gather(values, ranges, |values|)[Offset(ranges, k)..Offset(ranges, k) + Len(ranges[k])]
         == values[ranges[k].start..ranges[k].end]
  {
    hide Layout, Gather, Clip;
    GatherCons(values, ranges, |values|);
    var rest := ranges[1..];
    var first, tail := Clip(values, ranges[0], |values|), Gather(values, rest, |values|);
    ClipWhole(values, ranges[0]);
    hide Len;
    if k == 0 {
      assert (first + tail)[..|first|] == first;
    } else {
      GatheredPiece(values, rest, k - 1);
      assert Offset(ranges, k) == |first| + Offset(rest, k - 1);
      SliceOfTail(first, tail, Offset(rest, k - 1), Len(rest[k - 1]));
    }
  }

  lemma ClipWhole<T>(values: seq<T>, r: Range)
    requires r.start <= r.end <= |values|
    ensures Clip(values, r, |values|) == values[r.start..r.end] && |Clip(values, r, |values|)| == Len(r)
  {
  }

  lemma EmptyTail<T>(a: seq<T>)
    ensures a + [] == a
  {
  }

  lemma SliceOfTail<T>(first: seq<T>, tail: seq<T>, at: nat, len: nat)
    requires at + len <= |tail|
    ensures (first + tail)[|first| + at..|first| + at + len] == tail[at..at + len]
  {
  }

  lemma {:induction false} GatheredLength<T>(values: seq<T>, ranges: seq<Range>)
    requires Layout(ranges, |values|)
    ensures |Gather(values, ranges, |values|)| == Total(ranges)
  {
    if ranges != [] {
      GatheredLength(values, ranges[1..]);
    }
  }

  /** Gathering two parallel arrays keeps them in lockstep. */
  lemma {:induction false} Lockstep<T, U>(values: seq<T>, others: seq<U>, ranges: seq<Range>, i: nat) returns (j: nat)
    requires |values| == |others| && Layout(ranges, |values|)
    requires i < |Gather(values, ranges, |values|)|
    ensures |Gather(others, ranges, |others|)| == |Gather(values, ranges, |values|)|
    ensures j < |values|
    ensures Gather(values, ranges, |values|)[i] == values[j]
    ensures Gather(others, ranges, |others|)[i] == others[j]
  {
    GatheredLength(values, ranges);
    GatheredLength(others, ranges);
    var len := ranges[0].end - ranges[0].start;
    if i < len {
      j := ranges[0].start + i;
    } else {
      j := Lockstep(values, others, ranges[1..], i - len);
    }
  }

  ghost function IndicesOf(r: Range): set<nat> {
    set i: nat | i < r.end && Contains(r, i)
  }

  ghost function CoveredBy(ranges: seq<Range>): set<nat> {
    if ranges == [] then {} else IndicesOf(ranges[0]) + CoveredBy(ranges[1..])
  }

  lemma {:induction false} IndicesSize(r: Range)
    requires r.start <= r.end
    ensures |IndicesOf(r)| == Len(r)
    decreases r.end
  {
    if r.start == r.end {
      assert IndicesOf(r) == {};
    } else {
      var shorter := Range(r.start, r.end - 1);
      IndicesSize(shorter);
      assert IndicesOf(r) == IndicesOf(shorter) + {r.end - 1};
    }
  }

  lemma {:induction false} InCovered(ranges: seq<Range>, i: nat)
    ensures i in CoveredBy(ranges) <==> exists j :: 0 <= j < |ranges| && Contains(ranges[j], i)
  {
    if ranges != [] {
      InCovered(ranges[1..], i);
      if i in CoveredBy(ranges[1..]) {
        var j :| 0 <= j < |ranges[1..]| && Contains(ranges[1..][j], i);
        assert Contains(ranges[j + 1], i);
      }
      forall j | 0 < j < |ranges| && Contains(ranges[j], i)
        ensures i in CoveredBy(ranges[1..])
      {
        assert Contains(ranges[1..][j - 1], i);
      }
    }
  }

  /** Disjoint ranges cover as many elements as they have together. */
  lemma {:induction false} CoveredSize(ranges: seq<Range>, n: nat)
    requires Layout(ranges, n)
    ensures |CoveredBy(ranges)| == Total(ranges)
  {
    if ranges != [] {
      var rest := ranges[1..];
      CoveredSize(rest, n);
      IndicesSize(ranges[0]);
      forall i | i in IndicesOf(ranges[0])
        ensures i !in CoveredBy(rest)
      {
        InCovered(rest, i);
        assert forall j :: 0 <= j < |rest| ==> rest[j] == ranges[j + 1] && Separate(ranges[0], ranges[j + 1]);
      }
      assert IndicesOf(ranges[0]) !! CoveredBy(rest);
    }
  }

  /** Disjoint ranges within `n` cannot hold more than `n` elements. */
  lemma {:induction false} TotalFits(ranges: seq<Range>, n: nat)
    requires Layout(ranges, n)
    ensures Total(ranges) <= n
  {
    TotalFitsFrom(ranges, 0, n);
  }

  lemma {:induction false} TotalFitsFrom(ranges: seq<Range>, from: nat, n: nat)
    requires Layout(ranges, n) && from <= n
    requires forall r :: r in ranges ==> from <= r.start || r.start == r.end
    ensures Total(ranges) <= n - from
  {
    if ranges != [] {
      var head, rest := ranges[0], ranges[1..];
      assert head in ranges;
      var next := if head.start == head.end then from else head.end;
      forall r | r in rest
        ensures next <= r.start || r.start == r.end
      {
        var j :| 0 <= j < |rest| && rest[j] == r;
        assert ranges[j + 1] == r && Separate(ranges[0], ranges[j + 1]);
        assert r in ranges;
      }
      TotalFitsFrom(rest, next, n);
    }
  }

  // ---------------------------------------------------------- in-place compaction

  /** The elements of a range. */
  function Piece<T>(s: seq<T>, r: Range): (p: seq<T>) {
    if r.start <= r.end <= |s| then s[r.start..r.end] else []
  }

  /** Copy a range of the array over the elements that start at `dest`. */
  function CopyWithin<T>(values: seq<T>, r: Range, dest: nat): (c: seq<T>)
    requires r.start <= r.end <= |values| && dest + Len(r) <= |values|
    ensures |c| == |values|
  {
    values[..dest] + values[r.start..r.end] + values[dest + Len(r)..]
  }

  lemma CopyMoves<T>(values: seq<T>, r: Range, dest: nat)
    requires r.start <= r.end <= |values| && dest + Len(r) <= |values|
    ensures Piece(CopyWithin(values, r, dest), Moved(r, dest)) == Piece(values, r)
  {
    assert CopyWithin(values, r, dest)[dest..dest + Len(r)] == values[r.start..r.end];
  }

  lemma CopyLeaves<T>(values: seq<T>, r: Range, dest: nat, s: Range)
    requires r.start <= r.end <= |values| && dest + Len(r) <= |values|
    requires s.end <= dest || dest + Len(r) <= s.start || s.start == s.end
    ensures Piece(CopyWithin(values, r, dest), s) == Piece(values, s)
  {
  }

  /** Ranges in use: in bounds and pairwise disjoint. */
  predicate InUse<K(==)>(m: map<K, Range>, n: nat) {
    && (forall k :: k in m ==> m[k].start <= m[k].end <= n)
    && (forall k, l :: k in m && l in m && k != l ==> Separate(m[k], m[l]))
  }

  /** An order of the keys of `m` by the start of their ranges. */
  predicate SortedKeys<K(==)>(m: map<K, Range>, order: seq<K>) {
    && (forall k :: k in order ==> k in m)
    && (forall k :: k in m ==> k in order)
    && (forall i, j :: 0 <= i < j < |order| ==> order[i] != order[j])
    && (forall i, j :: 0 <= i < j < |order| ==> m[order[i]].start <= m[order[j]].start)
  }

  function RangesIn<K(==)>(m: map<K, Range>, order: seq<K>): (r: seq<Range>)
    requires forall k :: k in order ==> k in m
    ensures |r| == |order| && forall i :: 0 <= i < |order| ==> r[i] == m[order[i]]
  {
    seq(|order|, i requires 0 <= i < |order| => m[order[i]])
  }

  lemma {:induction false} EarliestExists<K>(m: map<K, Range>, keys: set<K>, k: K)
    requires keys <= m.Keys && k in keys
    ensures exists e :: e in keys && forall l :: l in keys ==> m[e].start <= m[l].start
    decreases m[k].start
  {
    if e :| e in keys && m[e].start < m[k].start {
      EarliestExists(m, keys, e);
    }
  }

  /** Sort by start; ranges that start together may come in either order. */
  method SortByStart<K(==)>(m: map<K, Range>) returns (order: seq<K>)
    ensures SortedKeys(m, order)
  {
    order := [];
    var rest := m.Keys;
    while rest != {}
      invariant rest <= m.Keys
      invariant forall k :: k in order ==> k in m && k !in rest
      invariant forall k :: k in m ==> k in rest || k in order
      invariant forall i, j :: 0 <= i < j < |order| ==> order[i] != order[j]
      invariant forall i, j :: 0 <= i < j < |order| ==> m[order[i]].start <= m[order[j]].start
      invariant forall k, l :: k in order && l in rest ==> m[k].start <= m[l].start
      decreases rest
    {
      ghost var some :| some in rest;
      EarliestExists(m, rest, some);
      var k :| k in rest && forall l :: l in rest ==> m[k].start <= m[l].start;
      order := order + [k];
      rest := rest - {k};
    }
  }

  lemma SortedLayout<K>(m: map<K, Range>, order: seq<K>, n: nat)
    requires InUse(m, n) && SortedKeys(m, order)
    ensures Layout(RangesIn(m, order), n)
  {
  }

  /** After a non-empty first range, the others start no earlier than it ends. */
  lemma RestStartsAfter(ranges: seq<Range>, n: nat, from: nat, next: nat)
    requires Layout(ranges, n) && ranges != [] && next == if ranges[0].start == ranges[0].end then from else ranges[0].end
    requires forall r :: r in ranges ==> from <= r.start || r.start == r.end
    ensures Layout(ranges[1..], n) && forall r :: r in ranges[1..] ==> next <= r.start || r.start == r.end
  {
    forall r | r in ranges[1..]
      ensures next <= r.start || r.start == r.end
    {
      var i :| 0 <= i < |ranges[1..]| && ranges[1..][i] == r;
      assert ranges[i + 1] == r && Separate(ranges[0], ranges[i + 1]);
      assert r in ranges;
    }
  }

  lemma {:induction false} OffsetBelow(ranges: seq<Range>, n: nat, from: nat, k: nat, j: nat)
    requires Layout(ranges, n) && k <= j < |ranges| && ranges[j].start < ranges[j].end
    requires forall r :: r in ranges ==> from <= r.start || r.start == r.end
    ensures from + Offset(ranges, k) <= ranges[j].start
  {
    assert ranges[j] in ranges;
    if k > 0 {
      var head, rest := ranges[0], ranges[1..];
      assert head in ranges && head.start <= head.end && Separate(head, ranges[j]);
      var next := if head.start == head.end then from else head.end;
      RestStartsAfter(ranges, n, from, next);
      hide Layout, Separate;
      assert rest[j - 1] == ranges[j];
      OffsetBelow(rest, n, next, k - 1, j - 1);
    }
  }

  lemma {:induction false} OffsetMonotone(ranges: seq<Range>, i: nat, j: nat)
    requires i <= j <= |ranges|
    ensures Offset(ranges, i) <= Offset(ranges, j)
    decreases j - i
  {
    if i < j {
      OffsetNext(ranges, i);
      OffsetMonotone(ranges, i + 1, j);
    }
  }

  /** The first `i` ranges read at their new places what they read before. */
  ghost predicate Placed<T>(values: seq<T>, now: seq<T>, ranges: seq<Range>, i: nat)
    requires i <= |ranges|
  {
    forall j {:trigger Offset(ranges, j)} :: 0 <= j < i ==>
      Piece(now, Moved(ranges[j], Offset(ranges, j))) == Piece(values, ranges[j])
  }

  /** The ranges from `i` on still read at their old places what they read before. */
  ghost predicate Unmoved<T>(values: seq<T>, now: seq<T>, ranges: seq<Range>, i: nat) {
    forall j {:trigger Piece(now, ranges[j])} :: i <= j < |ranges| ==> Piece(now, ranges[j]) == Piece(values, ranges[j])
  }

  ghost predicate MovedSoFar<T>(values: seq<T>, now: seq<T>, ranges: seq<Range>, i: nat)
    requires i <= |ranges|
  {
    |now| == |values| && Placed(values, now, ranges, i) && Unmoved(values, now, ranges, i)
  }

  lemma NextFits(ranges: seq<Range>, n: nat, i: nat)
    requires Layout(ranges, n) && i < |ranges|
    ensures Offset(ranges, i) + Len(ranges[i]) == Offset(ranges, i + 1) <= n
  {
    OffsetNext(ranges, i);
    OffsetMonotone(ranges, i + 1, |ranges|);
    OffsetOfAll(ranges);
    TotalFits(ranges, n);
  }

  lemma MovedStays<T>(now: seq<T>, ranges: seq<Range>, i: nat, j: nat)
    requires j < i < |ranges| && ranges[i].start <= ranges[i].end <= |now| && Offset(ranges, i) + Len(ranges[i]) <= |now|
    ensures Piece(CopyWithin(now, ranges[i], Offset(ranges, i)), Moved(ranges[j], Offset(ranges, j)))
         == Piece(now, Moved(ranges[j], Offset(ranges, j)))
  {
    hide Offset, Piece, CopyWithin;
    OffsetNext(ranges, j);
    OffsetMonotone(ranges, j + 1, i);
    CopyLeaves(now, ranges[i], Offset(ranges, i), Moved(ranges[j], Offset(ranges, j)));
  }

  lemma UnmovedStays<T>(now: seq<T>, ranges: seq<Range>, i: nat, j: nat)
    requires Layout(ranges, |now|) && i < j < |ranges| && Offset(ranges, i) + Len(ranges[i]) == Offset(ranges, i + 1) <= |now|
    ensures Piece(CopyWithin(now, ranges[i], Offset(ranges, i)), ranges[j]) == Piece(now, ranges[j])
  {
    hide Offset, Piece, CopyWithin;
    assert forall r :: r in ranges ==> 0 <= r.start;
    if ranges[j].start < ranges[j].end {
      OffsetBelow(ranges, |now|, 0, i + 1, j);
    }
    CopyLeaves(now, ranges[i], Offset(ranges, i), ranges[j]);
  }

  lemma PlacedNext<T>(values: seq<T>, now: seq<T>, ranges: seq<Range>, i: nat)
    requires i < |ranges| && ranges[i].start <= ranges[i].end <= |now| && Offset(ranges, i) + Len(ranges[i]) <= |now|
    requires Placed(values, now, ranges, i) && Piece(now, ranges[i]) == Piece(values, ranges[i])
    ensures Placed(values, CopyWithin(now, ranges[i], Offset(ranges, i)), ranges, i + 1)
  {
    hide Piece, CopyWithin, Offset, Moved;
    CopyMoves(now, ranges[i], Offset(ranges, i));
    forall j | 0 <= j < i
      ensures Piece(CopyWithin(now, ranges[i], Offset(ranges, i)), Moved(ranges[j], Offset(ranges, j))) == Piece(values, ranges[j])
    {
      MovedStays(now, ranges, i, j);
    }
  }

  lemma UnmovedNext<T>(values: seq<T>, now: seq<T>, ranges: seq<Range>, i: nat)
    requires Layout(ranges, |now|) && i < |ranges| && Offset(ranges, i) + Len(ranges[i]) == Offset(ranges, i + 1) <= |now|
    requires Unmoved(values, now, ranges, i)
    ensures Unmoved(values, CopyWithin(now, ranges[i], Offset(ranges, i)), ranges, i + 1)
  {
    hide Piece, CopyWithin, Offset;
    forall j | i < j < |ranges|
      ensures Piece(CopyWithin(now, ranges[i], Offset(ranges, i)), ranges[j]) == Piece(values, ranges[j])
    {
      UnmovedStays(now, ranges, i, j);
    }
  }

  lemma MoveOne<T>(values: seq<T>, now: seq<T>, ranges: seq<Range>, i: nat)
    requires Layout(ranges, |values|) && i < |ranges|
    requires MovedSoFar(values, now, ranges, i)
    ensures ranges[i].start <= ranges[i].end <= |values|
    ensures Offset(ranges, i) + Len(ranges[i]) == Offset(ranges, i + 1) <= |values|
    ensures MovedSoFar(values, CopyWithin(now, ranges[i], Offset(ranges, i)), ranges, i + 1)
  {
    NextFits(ranges, |values|, i);
    assert ranges[i].start <= ranges[i].end <= |values|;
    assert Piece(now, ranges[i]) == Piece(values, ranges[i]);
    hide Piece, Offset, Layout, Placed, Unmoved;
    PlacedNext(values, now, ranges, i);
    UnmovedNext(values, now, ranges, i);
  }

  lemma NothingMoved<T>(values: seq<T>, ranges: seq<Range>)
    ensures MovedSoFar(values, values, ranges, 0) && Offset(ranges, 0) == 0
  {
  }

  method MoveAll<T, K(==)>(values: seq<T>, m: map<K, Range>, order: seq<K>)
      returns (packed: seq<T>, moved: map<K, Range>, next: nat)
    requires SortedKeys(m, order) && Layout(RangesIn(m, order), |values|)
    ensures |packed| == |values| && moved.Keys == m.Keys && next == Offset(RangesIn(m, order), |order|)
    ensures forall j :: 0 <= j < |order| ==> moved[order[j]] == Moved(m[order[j]], Offset(RangesIn(m, order), j))
    ensures MovedSoFar(values, packed, RangesIn(m, order), |order|)
  {
    hide Layout, Piece, Offset, MovedSoFar, Total, CopyWithin, Len;
    var ranges := RangesIn(m, order);
    NothingMoved(values, ranges);
    packed, moved, next := values, m, 0;
    for i := 0 to |order|
      invariant next == Offset(ranges, i)
      invariant moved.Keys == m.Keys && |packed| == |values|
      invariant forall j :: 0 <= j < i ==> moved[order[j]] == Moved(m[order[j]], Offset(ranges, j))
      invariant forall j :: i <= j < |order| ==> moved[order[j]] == m[order[j]]
      invariant MovedSoFar(values, packed, ranges, i)
    {
      MoveOne(values, packed, ranges, i);
      var range := moved[order[i]];
      packed := CopyWithin(packed, range, next);
      moved := moved[order[i] := Moved(range, next)];
      next := next + Len(range);
    }
  }

  /** Move every range left over the gaps, in place, and cut off what remains. */
  method CompactInPlace<T, K(==)>(values: seq<T>, m: map<K, Range>) returns (packed: seq<T>, moved: map<K, Range>)
    requires InUse(m, |values|)
    ensures moved.Keys == m.Keys && InUse(moved, |packed|)
    ensures forall k :: k in m ==> Piece(packed, moved[k]) == Piece(values, m[k])
    ensures exists order :: SortedKeys(m, order) && |packed| == Total(RangesIn(m, order))
    ensures Gapless(moved, |packed|)
  {
    var order := SortByStart(m);
    hide Piece, Offset, MovedSoFar, Total, Layout;
    SortedLayout(m, order, |values|);
    if Total(RangesIn(m, order)) == |values| {
      FullIsGapless(m, order, |values|);
      return values, m;
    }
    var next: nat;
    packed, moved, next := MoveAll(values, m, order);
    OffsetOfAll(RangesIn(m, order));
    TotalFits(RangesIn(m, order), |values|);
    TruncateKeeps(values, packed, m, order, moved, next);
    RelocatedGapless(m, order, moved, next);
    packed := packed[..next];
  }

  /** Some range holds the index. */
  ghost predicate Used<K>(m: map<K, Range>, i: nat) {
    exists k :: k in m && Contains(m[k], i)
  }

  /** Every index up to `n` is in use. */
  ghost predicate Gapless<K>(m: map<K, Range>, n: nat) {
    forall i: nat :: i < n ==> Used(m, i)
  }

  /** Disjoint ranges as long as the array leave no gap. */
  lemma FullIsGapless<K>(m: map<K, Range>, order: seq<K>, n: nat)
    requires SortedKeys(m, order) && Layout(RangesIn(m, order), n) && Total(RangesIn(m, order)) == n
    ensures Gapless(m, n)
  {
    var ranges := RangesIn(m, order);
    CoveredSize(ranges, n);
    var all := Upto(n);
    forall i: nat
      ensures i in CoveredBy(ranges) <==> exists j :: 0 <= j < |ranges| && Contains(ranges[j], i)
    {
      InCovered(ranges, i);
    }
    assert forall i :: i in CoveredBy(ranges) ==> i in all;
    hide CoveredBy;
    SameSize(CoveredBy(ranges), all);
    forall i: nat | i < n
      ensures Used(m, i)
    {
      assert i in all;
      var j :| 0 <= j < |ranges| && Contains(ranges[j], i);
      assert order[j] in m;
    }
  }

  ghost function Upto(n: nat): (s: set<nat>)
    ensures |s| == n && forall i: nat :: i in s <==> i < n
  {
    if n == 0 then {}
    else
      var rest := Upto(n - 1);
      assert n - 1 !in rest;
      rest + {n - 1}
  }

  lemma SameSize(a: set<nat>, b: set<nat>)
    requires a <= b && |a| == |b|
    ensures a == b
  {
    assert |b - a| == |b| - |a|;
  }

  /** Ranges laid end to end leave no gap. */
  lemma RelocatedGapless<K>(m: map<K, Range>, order: seq<K>, moved: map<K, Range>, n: nat)
    requires SortedKeys(m, order) && moved.Keys == m.Keys && n == Total(RangesIn(m, order))
    requires forall j :: 0 <= j < |order| ==> moved[order[j]] == Moved(m[order[j]], Offset(RangesIn(m, order), j))
    ensures Gapless(moved, n)
  {
    hide Offset, Total;
    forall i: nat | i < n
      ensures Used(moved, i)
    {
      var j := RangeAt(RangesIn(m, order), i);
      assert Contains(moved[order[j]], i);
    }
  }

  lemma {:induction false} RangeAt(ranges: seq<Range>, i: nat) returns (j: nat)
    requires i < Total(ranges)
    ensures j < |ranges| && Offset(ranges, j) <= i < Offset(ranges, j) + Len(ranges[j])
  {
    if i < Len(ranges[0]) {
      j := 0;
    } else {
      j := RangeAt(ranges[1..], i - Len(ranges[0]));
      j := j + 1;
    }
  }

  lemma PieceOfPrefix<T>(s: seq<T>, n: nat, r: Range)
    requires r.start <= r.end <= n <= |s|
    ensures Piece(s[..n], r) == Piece(s, r)
  {
  }

  lemma TruncateKeeps<T, K>(values: seq<T>, now: seq<T>, m: map<K, Range>, order: seq<K>, moved: map<K, Range>, n: nat)
    requires SortedKeys(m, order) && moved.Keys == m.Keys
    requires n == Total(RangesIn(m, order)) <= |now|
    requires forall j :: 0 <= j < |order| ==> moved[order[j]] == Moved(m[order[j]], Offset(RangesIn(m, order), j))
    requires MovedSoFar(values, now, RangesIn(m, order), |order|)
    ensures InUse(moved, n)
    ensures forall k :: k in m ==> Piece(now[..n], moved[k]) == Piece(values, m[k])
  {
    var ranges := RangesIn(m, order);
    RelocatedInUse(m, order, moved, n);
    hide Piece, Offset, Total;
    forall k | k in m
      ensures Piece(now[..n], moved[k]) == Piece(values, m[k])
    {
      var j :| 0 <= j < |order| && order[j] == k;
      assert Piece(now, moved[k]) == Piece(values, ranges[j]);
      assert moved[k].start <= moved[k].end <= n;
      PieceOfPrefix(now, n, moved[k]);
    }
  }

  /** Ranges laid end to end are in bounds and disjoint. */
  lemma RelocatedInUse<K>(m: map<K, Range>, order: seq<K>, moved: map<K, Range>, n: nat)
    requires SortedKeys(m, order) && moved.Keys == m.Keys
    requires n == Total(RangesIn(m, order))
    requires forall j :: 0 <= j < |order| ==> moved[order[j]] == Moved(m[order[j]], Offset(RangesIn(m, order), j))
    ensures InUse(moved, n)
  {
    var ranges := RangesIn(m, order);
    OffsetOfAll(ranges);
    forall k | k in moved
      ensures moved[k].start <= moved[k].end <= n
    {
      var j :| 0 <= j < |order| && order[j] == k;
      OffsetNext(ranges, j);
      OffsetMonotone(ranges, j + 1, |order|);
    }
    forall k, l | k in moved && l in moved && k != l
      ensures Separate(moved[k], moved[l])
    {
      var i :| 0 <= i < |order| && order[i] == k;
      var j :| 0 <= j < |order| && order[j] == l;
      EndToEnd(ranges, i, j);
    }
  }

  lemma EndToEnd(ranges: seq<Range>, i: nat, j: nat)
    requires i < |ranges| && j < |ranges| && i != j
    ensures Separate(Moved(ranges[i], Offset(ranges, i)), Moved(ranges[j], Offset(ranges, j)))
  {
    OffsetNext(ranges, i);
    OffsetNext(ranges, j);
    if i < j {
      OffsetMonotone(ranges, i + 1, j);
    } else {
      OffsetMonotone(ranges, j + 1, i);
    }
  }
}
