/** Dropping stale frames from the frame table without disturbing what is cached. */
module TableCompaction {
  import opened FrameTable
  import C = Compaction

  function RangeOf(c: Cached): (r: C.Range) {
    C.Range(c.start, c.end)
  }

  function RangesOf(cache: map<Key, Cached>): (m: map<Key, C.Range>)
    ensures m.Keys == cache.Keys && forall k :: k in cache ==> m[k] == RangeOf(cache[k])
  {
    map k | k in cache :: RangeOf(cache[k])
  }

  lemma CachedInUse(n: nat, cache: map<Key, Cached>)
    requires RangesOk(n, cache)
    ensures C.InUse(RangesOf(cache), n)
  {
    forall k, l | k in cache && l in cache && k != l
      ensures C.Separate(RangeOf(cache[k]), RangeOf(cache[l]))
    {
      assert Apart(cache[k], cache[l]);
    }
  }

  /** The same cached results at new places. */
  ghost predicate Repacked(t: Table, r: Table) {
    && r.cache.Keys == t.cache.Keys && r.next == t.next
    && r.slots == map[] && r.vacant == []
    && forall k {:trigger r.cache[k]} {:trigger t.cache[k]} :: k in t.cache ==>
      && r.cache[k].perfMapDependent == t.cache[k].perfMapDependent
      && Piece(r.frames, r.cache[k]) == Piece(t.frames, t.cache[k])
      && Piece(r.ids, r.cache[k]) == Piece(t.ids, t.cache[k])
  }

  /** Indices of the frames that some cached range covers. */
  ghost function Covered(t: Table): set<nat> {
    set i | 0 <= i < |t.frames| && IsCovered(t.cache, i)
  }

  ghost predicate IsCovered(cache: map<Key, Cached>, i: nat) {
    exists k :: k in cache && !Outside(i, cache[k])
  }

  lemma CoveredIs(t: Table, order: seq<Key>)
    requires RangesOk(|t.frames|, t.cache) && C.SortedKeys(RangesOf(t.cache), order)
    requires C.Layout(C.RangesIn(RangesOf(t.cache), order), |t.frames|)
    ensures |Covered(t)| == C.Total(C.RangesIn(RangesOf(t.cache), order))
  {
    var ranges := C.RangesIn(RangesOf(t.cache), order);
    C.CoveredSize(ranges, |t.frames|);
    forall i: nat
      ensures i in Covered(t) <==> i in C.CoveredBy(ranges)
    {
      CoveredAt(t, order, i);
    }
    hide Covered, C.CoveredBy;
    assert Covered(t) == C.CoveredBy(ranges);
  }

  lemma CoveredAt(t: Table, order: seq<Key>, i: nat)
    requires RangesOk(|t.frames|, t.cache) && C.SortedKeys(RangesOf(t.cache), order)
    ensures i in Covered(t) <==> i in C.CoveredBy(C.RangesIn(RangesOf(t.cache), order))
  {
    var m := RangesOf(t.cache);
    assert forall k :: k in order <==> k in m;
    hide C.CoveredBy, C.SortedKeys;
    C.InCovered(C.RangesIn(m, order), i);
    SomeRange(m, order, i);
    hide C.RangesIn;
    forall k | k in t.cache
      ensures C.Contains(m[k], i) <==> !Outside(i, t.cache[k])
    {
    }
  }

  lemma SomeRange(m: map<Key, C.Range>, order: seq<Key>, i: nat)
    requires forall k :: k in order <==> k in m
    ensures (exists j :: 0 <= j < |order| && C.Contains(C.RangesIn(m, order)[j], i)) <==> exists k :: k in m && C.Contains(m[k], i)
  {
    var ranges := C.RangesIn(m, order);
    if k :| k in m && C.Contains(m[k], i) {
      var j :| 0 <= j < |order| && order[j] == k;
      assert C.Contains(ranges[j], i);
    }
    if j :| 0 <= j < |order| && C.Contains(ranges[j], i) {
      assert order[j] in order && C.Contains(m[order[j]], i);
    }
  }

  /** The index is covered by a range that was counted already. */
  ghost predicate Counted(cache: map<Key, Cached>, todo: set<Key>, i: nat) {
    exists k :: k in cache && k !in todo && !Outside(i, cache[k])
  }

  lemma CountNext(n: nat, cache: map<Key, Cached>, todo: set<Key>, k: Key, seen: set<nat>)
    requires RangesOk(n, cache) && k in todo && todo <= cache.Keys && forall i: nat :: i in seen <==> Counted(cache, todo, i)
    ensures var more := seen + C.IndicesOf(RangeOf(cache[k]));
      && (forall i: nat :: i in more <==> Counted(cache, todo - {k}, i))
      && |more| == |seen| + C.Len(RangeOf(cache[k]))
  {
    var r := RangeOf(cache[k]);
    C.IndicesSize(r);
    forall i: nat
      ensures i in seen + C.IndicesOf(r) <==> Counted(cache, todo - {k}, i)
      ensures !(i in seen && i in C.IndicesOf(r))
    {
      if Counted(cache, todo, i) {
        var l :| l in cache && l !in todo && !Outside(i, cache[l]);
        assert Apart(cache[k], cache[l]) && l !in todo - {k};
      }
      if Counted(cache, todo - {k}, i) {
        var l :| l in cache && l !in todo - {k} && !Outside(i, cache[l]);
        assert l != k ==> Counted(cache, todo, i);
      }
      if i in C.IndicesOf(r) {
        assert !Outside(i, cache[k]) && k !in todo - {k};
      }
    }
    assert seen !! C.IndicesOf(r);
  }

  /** How many frames the cached ranges cover, as the sum of their lengths. */
  method RetainedFrames(t: Table) returns (n: nat)
    requires TableOk(t)
    ensures n == |Covered(t)|
  {
    hide SlotsOk, VacantOk;
    n := 0;
    var todo := t.cache.Keys;
    ghost var seen: set<nat> := {};
    while todo != {}
      invariant todo <= t.cache.Keys && n == |seen|
      invariant forall i: nat :: i in seen <==> Counted(t.cache, todo, i)
      decreases |todo|
    {
      var k :| k in todo;
      CountNext(|t.frames|, t.cache, todo, k, seen);
      n := n + (t.cache[k].end - t.cache[k].start);
      seen := seen + C.IndicesOf(RangeOf(t.cache[k]));
      todo := todo - {k};
    }
    forall i: nat
      ensures i in seen <==> i in Covered(t)
    {
      assert Counted(t.cache, {}, i) <==> IsCovered(t.cache, i);
      if k :| k in t.cache && !Outside(i, t.cache[k]) {
        assert t.cache[k].end <= |t.frames|;
      }
    }
    assert seen == Covered(t);
  }

  /** Keep exactly the frames that some cached range covers, in array order. */
  method CompactTable(t: Table) returns (r: Table)
    requires TableOk(t)
    ensures TableOk(r) && Repacked(t, r)
    ensures |r.frames| == |Covered(t)| <= |t.frames|
    ensures forall owner, issued :: KeysOk(t, owner, issued) ==> KeysOk(r, owner, issued)
  {
    var m := RangesOf(t.cache);
    CachedInUse(|t.frames|, t.cache);
    var order := C.SortByStart(m);
    C.SortedLayout(m, order, |t.frames|);
    var ranges := C.RangesIn(m, order);
    C.TotalFits(ranges, |t.frames|);
    CoveredIs(t, order);
    hide Covered;
    var frames := C.RetainRanges(t.frames, ranges);
    var ids := C.RetainRanges(t.ids, ranges);
    C.GatheredLength(t.frames, ranges);
    C.GatheredLength(t.ids, ranges);
    var cache := Relocate(t.cache, order);
    r := Table(frames, ids, t.next, cache, map[], []);
    RelocatedReads(t, order, r);
    RelocatedOk(t, order, r);
    KeysFollow(t, ranges, r);
  }

  /** `moved` holds every range of `cache`, end to end in the given order. */
  ghost predicate LaidOut(cache: map<Key, Cached>, order: seq<Key>, moved: map<Key, Cached>)
    requires forall k :: k in order ==> k in cache
  {
    && moved.Keys == cache.Keys
    && forall j {:trigger order[j]} :: 0 <= j < |order| ==>
         moved[order[j]] == At(cache[order[j]], C.Offset(C.RangesIn(RangesOf(cache), order), j))
  }

  function At(c: Cached, start: nat): (m: Cached) {
    Cached(start, start + C.Len(RangeOf(c)), c.perfMapDependent)
  }

  /** Lay the ranges end to end in the given order. */
  method Relocate(cache: map<Key, Cached>, order: seq<Key>) returns (moved: map<Key, Cached>)
    requires C.SortedKeys(RangesOf(cache), order)
    ensures LaidOut(cache, order, moved)
  {
    hide C.Offset, C.Len, C.Total;
    var ranges := C.RangesIn(RangesOf(cache), order);
    moved := cache;
    var next := 0;
    C.NothingMoved<nat>([], ranges);
    for i := 0 to |order|
      invariant moved.Keys == cache.Keys && next == C.Offset(ranges, i)
      invariant forall j :: 0 <= j < i ==>
        moved[order[j]] == At(cache[order[j]], C.Offset(ranges, j))
      invariant forall j :: i <= j < |order| ==> moved[order[j]] == cache[order[j]]
    {
      C.OffsetNext(ranges, i);
      var c := moved[order[i]];
      moved := moved[order[i] := At(c, next)];
      next := next + C.Len(RangeOf(c));
    }
  }

  /** One relocated range reads the same through the gathered array. */
  lemma RelocatedOne<T>(values: seq<T>, ranges: seq<C.Range>, j: nat, c: Cached)
    requires C.Layout(ranges, |values|) && j < |ranges| && ranges[j] == RangeOf(c)
    ensures Piece(C.Gather(values, ranges, |values|), At(c, C.Offset(ranges, j))) == Piece(values, c)
  {
    hide C.Offset, C.Gather, C.Layout;
    C.GatheredPiece(values, ranges, j);
  }

  lemma RelocatedReads(t: Table, order: seq<Key>, r: Table)
    requires |t.ids| == |t.frames| && C.SortedKeys(RangesOf(t.cache), order)
    requires C.Layout(C.RangesIn(RangesOf(t.cache), order), |t.frames|)
    requires r.frames == C.Gather(t.frames, C.RangesIn(RangesOf(t.cache), order), |t.frames|)
    requires r.ids == C.Gather(t.ids, C.RangesIn(RangesOf(t.cache), order), |t.ids|)
    requires r.next == t.next && r.slots == map[] && r.vacant == []
    requires LaidOut(t.cache, order, r.cache)
    ensures Repacked(t, r)
  {
    hide C.Offset, C.Gather, C.Layout, Piece;
    forall k | k in t.cache
      ensures r.cache[k].perfMapDependent == t.cache[k].perfMapDependent
      ensures Piece(r.frames, r.cache[k]) == Piece(t.frames, t.cache[k])
      ensures Piece(r.ids, r.cache[k]) == Piece(t.ids, t.cache[k])
    {
      var j :| 0 <= j < |order| && order[j] == k;
      RelocatedOne(t.frames, C.RangesIn(RangesOf(t.cache), order), j, t.cache[k]);
      RelocatedOne(t.ids, C.RangesIn(RangesOf(t.cache), order), j, t.cache[k]);
    }
  }

  lemma RelocatedOk(t: Table, order: seq<Key>, r: Table)
    requires TableOk(t) && C.SortedKeys(RangesOf(t.cache), order)
    requires |r.frames| == |r.ids| == C.Total(C.RangesIn(RangesOf(t.cache), order))
    requires LaidOut(t.cache, order, r.cache) && r.slots == map[] && r.vacant == []
    ensures TableOk(r)
  {
    hide C.Offset, C.Total, SlotsOk, VacantOk;
    var m := RangesOf(t.cache);
    forall j | 0 <= j < |order|
      ensures RangesOf(r.cache)[order[j]] == C.Moved(m[order[j]], C.Offset(C.RangesIn(m, order), j))
      ensures r.cache[order[j]].start < r.cache[order[j]].end
    {
      assert order[j] in order;
    }
    C.RelocatedInUse(m, order, RangesOf(r.cache), |r.frames|);
    NoSlots(r);
  }

  lemma NoSlots(r: Table)
    requires |r.ids| == |r.frames| && r.slots == map[] && r.vacant == []
    requires C.InUse(RangesOf(r.cache), |r.frames|)
    requires forall k :: k in r.cache ==> r.cache[k].start < r.cache[k].end
    ensures TableOk(r)
  {
    forall k, l | k in r.cache && l in r.cache && k != l
      ensures Apart(r.cache[k], r.cache[l])
    {
      assert C.Separate(RangesOf(r.cache)[k], RangesOf(r.cache)[l]);
    }
    forall k | k in r.cache
      ensures r.cache[k].end <= |r.frames|
    {
      assert RangesOf(r.cache)[k] == RangeOf(r.cache[k]);
    }
  }

  /** Frames and keys move together, so every key keeps its meaning. */
  lemma KeysFollow(t: Table, ranges: seq<C.Range>, r: Table)
    requires |t.ids| == |t.frames| && C.Layout(ranges, |t.frames|) && r.next == t.next
    requires r.frames == C.Gather(t.frames, ranges, |t.frames|) && r.ids == C.Gather(t.ids, ranges, |t.ids|)
    ensures forall owner, issued :: KeysOk(t, owner, issued) ==> KeysOk(r, owner, issued)
  {
    C.GatheredLength(t.frames, ranges);
    C.GatheredLength(t.ids, ranges);
    forall owner, issued | KeysOk(t, owner, issued)
      ensures KeysOk(r, owner, issued)
    {
      forall i | 0 <= i < |r.ids|
        ensures r.ids[i].owner == owner && r.ids[i].serial in issued && issued[r.ids[i].serial] == r.frames[i]
      {
        var j := C.Lockstep(t.frames, t.ids, ranges, i);
      }
    }
  }
}
