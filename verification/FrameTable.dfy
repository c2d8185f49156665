/** The table of resolved frames: parallel arrays of frames and keys, ranges of
    them cached per spool frame, and slots that later results may reuse. */
module FrameTable {

  /** A displayable frame. */
  datatype Frame = Frame(address: nat, symbol: string)

  /** Owner-qualified identity of a resolved frame. */
  datatype FrameKey = FrameKey(owner: nat, serial: nat)

  /** Cache key: the process (0 for kernel frames) and the spool frame id. */
  datatype Key = Key(process: int, frame: nat)

  datatype Cached = Cached(start: nat, end: nat, perfMapDependent: bool)

  /** What resolving one frame yields. A retryable result is a single fallback frame. */
  datatype Outcome = Outcome(frames: seq<Frame>, retry: bool, perfMapDependent: bool)

  predicate WellFormed(o: Outcome) {
    |o.frames| >= 1 && (o.retry ==> |o.frames| == 1)
  }

  datatype Table = Table(
    frames: seq<Frame>, ids: seq<FrameKey>, next: nat,
    cache: map<Key, Cached>, slots: map<Key, nat>, vacant: seq<nat>)

  predicate Outside(i: nat, c: Cached) {
    i < c.start || c.end <= i
  }

  predicate Apart(c: Cached, d: Cached) {
    c.end <= d.start || d.end <= c.start
  }

  /** Cached ranges are non-empty, in bounds and pairwise disjoint. */
  predicate RangesOk(n: nat, cache: map<Key, Cached>) {
    && (forall k :: k in cache ==> cache[k].start < cache[k].end <= n)
    && (forall k, l :: k in cache && l in cache && k != l ==> Apart(cache[k], cache[l]))
  }

  /** Retry slots are distinct single frames that no other key's range covers. */
  predicate SlotsOk(n: nat, cache: map<Key, Cached>, slots: map<Key, nat>) {
    && (forall k :: k in slots ==> slots[k] < n)
    && (forall k, l :: k in slots && l in slots && k != l ==> slots[k] != slots[l])
    && (forall k, l {:trigger slots[k], cache[l]} :: k in slots && l in cache ==>
          if k == l then cache[l].start == slots[k] && cache[l].end == slots[k] + 1 else Outside(slots[k], cache[l]))
  }

  predicate VacantOk(n: nat, cache: map<Key, Cached>, slots: map<Key, nat>, vacant: seq<nat>) {
    && (forall i :: 0 <= i < |vacant| ==> vacant[i] < n)
    && (forall i, j :: 0 <= i < j < |vacant| ==> vacant[i] != vacant[j])
    && (forall i, k {:trigger vacant[i], cache[k]} :: 0 <= i < |vacant| && k in cache ==> Outside(vacant[i], cache[k]))
    && (forall i, k {:trigger vacant[i], slots[k]} :: 0 <= i < |vacant| && k in slots ==> vacant[i] != slots[k])
  }

  predicate TableOk(t: Table) {
    && |t.ids| == |t.frames|
    && RangesOk(|t.frames|, t.cache)
    && SlotsOk(|t.frames|, t.cache, t.slots)
    && VacantOk(|t.frames|, t.cache, t.slots, t.vacant)
  }

  /** Every key in the array denotes the frame it was issued for. */
  ghost predicate KeysOk(t: Table, owner: nat, issued: map<nat, Frame>) {
    && |t.ids| == |t.frames|
    && (forall s: nat :: s in issued <==> s < t.next)
    && (forall i :: 0 <= i < |t.ids| ==>
          t.ids[i].owner == owner && t.ids[i].serial in issued && issued[t.ids[i].serial] == t.frames[i])
  }

  /** The elements of a cached range. */
  function Piece<T>(s: seq<T>, c: Cached): (r: seq<T>) {
    if c.start <= c.end <= |s| then s[c.start..c.end] else []
  }

  function NewKeys(owner: nat, next: nat, n: nat): (r: seq<FrameKey>) {
    seq(n, i requires 0 <= i < n => FrameKey(owner, next + i))
  }

  /** The slot a single-frame result takes over, if there is one, and the vacant
      slots left: first the key's own retry slot, then the newest vacant one. */
  function Reusable(t: Table, key: Key): (r: (bool, nat, seq<nat>)) {
    if key in t.slots then (true, t.slots[key], t.vacant)
    else if t.vacant != [] then (true, t.vacant[|t.vacant| - 1], t.vacant[..|t.vacant| - 1])
    else (false, 0, [])
  }

  /** No cached range, no other key's retry slot and no remaining vacant slot is `slot`. */
  predicate Free(t: Table, key: Key, slot: nat, vacant: seq<nat>) {
    && slot < |t.frames| && vacant <= t.vacant
    && (forall k {:trigger t.cache[k]} :: k in t.cache ==> Outside(slot, t.cache[k]))
    && (forall k {:trigger t.slots[k]} :: k in t.slots && k != key ==> t.slots[k] != slot)
    && (forall i :: 0 <= i < |vacant| ==> vacant[i] != slot)
  }

  lemma ReusableIsFree(t: Table, key: Key)
    requires TableOk(t) && key !in t.cache && Reusable(t, key).0
    ensures Free(t, key, Reusable(t, key).1, Reusable(t, key).2)
  {
    var slot := Reusable(t, key).1;
    if key in t.slots {
      assert slot == t.slots[key];
    } else {
      assert slot == t.vacant[|t.vacant| - 1];
    }
  }

  function PlaceAt(t: Table, owner: nat, key: Key, o: Outcome, slot: nat, vacant: seq<nat>): (r: Table)
    requires |t.ids| == |t.frames| && slot < |t.frames| && |o.frames| == 1
  {
    Table(
      t.frames[slot := o.frames[0]], t.ids[slot := FrameKey(owner, t.next)], t.next + 1,
      t.cache[key := Cached(slot, slot + 1, o.perfMapDependent)],
      if o.retry then t.slots[key := slot] else t.slots - {key},
      vacant)
  }

  function Append(t: Table, owner: nat, key: Key, o: Outcome): (r: Table) {
    var n := |t.frames|;
    Table(
      t.frames + o.frames, t.ids + NewKeys(owner, t.next, |o.frames|), t.next + |o.frames|,
      t.cache[key := Cached(n, n + |o.frames|, o.perfMapDependent)],
      if o.retry then t.slots[key := n] else t.slots - {key},
      if key in t.slots then t.vacant + [t.slots[key]] else t.vacant)
  }

  /** Enter one outcome: reuse a slot for a single frame, otherwise append. */
  function Place(t: Table, owner: nat, key: Key, o: Outcome): (r: Table)
    requires TableOk(t) && key !in t.cache && WellFormed(o)
  {
    var (reuse, slot, vacant) := Reusable(t, key);
    if |o.frames| == 1 && reuse then
      ReusableIsFree(t, key);
      PlaceAt(t, owner, key, o, slot, vacant)
    else
      Append(t, owner, key, o)
  }

  lemma RangesAdd(n: nat, m: nat, cache: map<Key, Cached>, key: Key, c: Cached)
    requires RangesOk(n, cache) && key !in cache && n <= m && c.start < c.end <= m
    requires forall k :: k in cache ==> Apart(cache[k], c)
    ensures RangesOk(m, cache[key := c])
  {
  }

  lemma SlotsSet(n: nat, m: nat, cache: map<Key, Cached>, slots: map<Key, nat>, key: Key, c: Cached)
    requires SlotsOk(n, cache, slots) && key !in cache && n <= m && c.start < m && c.end == c.start + 1
    requires forall l {:trigger slots[l]} :: l in slots && l != key ==> slots[l] != c.start
    requires forall k {:trigger cache[k]} :: k in cache ==> Outside(c.start, cache[k])
    ensures SlotsOk(m, cache[key := c], slots[key := c.start])
  {
  }

  lemma SlotsUnset(n: nat, m: nat, cache: map<Key, Cached>, slots: map<Key, nat>, key: Key, c: Cached)
    requires SlotsOk(n, cache, slots) && key !in cache && n <= m
    requires forall l {:trigger slots[l]} :: l in slots && l != key ==> Outside(slots[l], c)
    ensures SlotsOk(m, cache[key := c], slots - {key})
  {
  }

  lemma PlaceAtKeepsTable(t: Table, owner: nat, key: Key, o: Outcome, slot: nat, vacant: seq<nat>)
    requires TableOk(t) && key !in t.cache && |o.frames| == 1 && Free(t, key, slot, vacant)
    ensures TableOk(PlaceAt(t, owner, key, o, slot, vacant))
  {
    hide RangesOk, SlotsOk;
    var n, c := |t.frames|, Cached(slot, slot + 1, o.perfMapDependent);
    RangesAdd(n, n, t.cache, key, c);
    if o.retry {
      SlotsSet(n, n, t.cache, t.slots, key, c);
    } else {
      SlotsUnset(n, n, t.cache, t.slots, key, c);
    }
    assert forall i :: 0 <= i < |vacant| ==> vacant[i] == t.vacant[i];
  }

  lemma AppendKeepsTable(t: Table, owner: nat, key: Key, o: Outcome)
    requires TableOk(t) && key !in t.cache && WellFormed(o)
    requires |o.frames| == 1 ==> key !in t.slots
    ensures TableOk(Append(t, owner, key, o))
  {
    hide VacantOk;
    var r := Append(t, owner, key, o);
    var n := |t.frames|;
    var c := r.cache[key];
    RangesAdd(n, |r.frames|, t.cache, key, c);
    if o.retry {
      SlotsSet(n, |r.frames|, t.cache, t.slots, key, c);
    } else {
      SlotsUnset(n, |r.frames|, t.cache, t.slots, key, c);
    }
    VacantKept(t, key, o, r);
  }

  lemma VacantKept(t: Table, key: Key, o: Outcome, r: Table)
    requires TableOk(t) && key !in t.cache && WellFormed(o)
    requires |o.frames| == 1 ==> key !in t.slots
    requires r.cache == t.cache[key := Cached(|t.frames|, |t.frames| + |o.frames|, o.perfMapDependent)]
    requires r.slots == if o.retry then t.slots[key := |t.frames|] else t.slots - {key}
    requires r.vacant == if key in t.slots then t.vacant + [t.slots[key]] else t.vacant
    ensures VacantOk(|t.frames| + |o.frames|, r.cache, r.slots, r.vacant)
  {
  }

  lemma PlaceKeepsTable(t: Table, owner: nat, key: Key, o: Outcome)
    requires TableOk(t) && key !in t.cache && WellFormed(o)
    ensures TableOk(Place(t, owner, key, o))
  {
    hide TableOk, Free;
    var (reuse, slot, vacant) := Reusable(t, key);
    if |o.frames| == 1 && reuse {
      ReusableIsFree(t, key);
      PlaceAtKeepsTable(t, owner, key, o, slot, vacant);
    } else {
      AppendKeepsTable(t, owner, key, o);
    }
  }

  /** The arrays grow by no more than what was resolved. */
  lemma PlaceGrows(t: Table, owner: nat, key: Key, o: Outcome)
    requires TableOk(t) && key !in t.cache && WellFormed(o)
    ensures |Place(t, owner, key, o).frames| <= |t.frames| + |o.frames|
  {
    hide VacantOk, SlotsOk, RangesOk;
    var (reuse, slot, vacant) := Reusable(t, key);
    if |o.frames| == 1 && reuse {
      ReusableIsFree(t, key);
      assert Place(t, owner, key, o) == PlaceAt(t, owner, key, o, slot, vacant);
    } else {
      assert Place(t, owner, key, o) == Append(t, owner, key, o);
    }
  }

  /** Where a result goes: a single frame into the key's own retry slot, or else into the
      newest vacant one, so that neither makes the table grow; anything else to the end, and
      the retry slot it no longer needs becomes vacant. Exactly a provisional result keeps
      its place reserved for the next try. */
  lemma PlaceReuses(t: Table, owner: nat, key: Key, o: Outcome)
    requires TableOk(t) && key !in t.cache && WellFormed(o)
    ensures var r := Place(t, owner, key, o);
      && |r.frames| == |t.frames| + (if |o.frames| == 1 && (key in t.slots || t.vacant != []) then 0 else |o.frames|)
      && (|o.frames| == 1 && key in t.slots ==> r.cache[key].start == t.slots[key] && r.vacant == t.vacant)
      && (|o.frames| == 1 && key !in t.slots && t.vacant != [] ==> r.vacant + [r.cache[key].start] == t.vacant)
      && (|o.frames| > 1 ==> r.vacant == t.vacant + if key in t.slots then [t.slots[key]] else [])
      && (key in r.slots <==> o.retry) && (o.retry ==> r.slots[key] == r.cache[key].start)
      && r.slots - {key} == t.slots - {key}
  {
    hide VacantOk, SlotsOk, RangesOk;
    var (reuse, slot, vacant) := Reusable(t, key);
    if |o.frames| == 1 && reuse {
      ReusableIsFree(t, key);
      assert Place(t, owner, key, o) == PlaceAt(t, owner, key, o, slot, vacant);
    } else {
      assert Place(t, owner, key, o) == Append(t, owner, key, o);
    }
  }

  /** Cached ranges of `t` are cached in `r` and read the same there. */
  ghost predicate SameReads(t: Table, r: Table) {
    forall k {:trigger r.cache[k]} {:trigger t.cache[k]} :: k in t.cache ==>
      && k in r.cache && r.cache[k] == t.cache[k]
      && Piece(r.frames, t.cache[k]) == Piece(t.frames, t.cache[k])
      && Piece(r.ids, t.cache[k]) == Piece(t.ids, t.cache[k])
  }

  lemma PlacedReads(t: Table, owner: nat, key: Key, o: Outcome)
    requires TableOk(t) && key !in t.cache && WellFormed(o)
    ensures var r := Place(t, owner, key, o);
      && r.cache.Keys == t.cache.Keys + {key}
      && Piece(r.frames, r.cache[key]) == o.frames && r.cache[key].perfMapDependent == o.perfMapDependent
  {
    hide VacantOk, SlotsOk, RangesOk;
    var (reuse, slot, vacant) := Reusable(t, key);
    var r := Place(t, owner, key, o);
    if |o.frames| == 1 && reuse {
      ReusableIsFree(t, key);
      assert r == PlaceAt(t, owner, key, o, slot, vacant);
      assert r.frames[slot..slot + 1] == o.frames;
    } else {
      assert r == Append(t, owner, key, o);
      assert r.frames[|t.frames|..] == o.frames;
    }
  }

  /** Placing one outcome makes its frames readable and disturbs no cached range. */
  lemma PlaceReads(t: Table, owner: nat, key: Key, o: Outcome)
    requires TableOk(t) && key !in t.cache && WellFormed(o)
    ensures var r := Place(t, owner, key, o);
      && r.cache.Keys == t.cache.Keys + {key}
      && Piece(r.frames, r.cache[key]) == o.frames && r.cache[key].perfMapDependent == o.perfMapDependent
      && SameReads(t, r)
  {
    PlacedReads(t, owner, key, o);
    hide TableOk, Place, Piece;
    var r := Place(t, owner, key, o);
    forall k | k in t.cache
      ensures r.cache[k] == t.cache[k]
      ensures Piece(r.frames, t.cache[k]) == Piece(t.frames, t.cache[k])
      ensures Piece(r.ids, t.cache[k]) == Piece(t.ids, t.cache[k])
    {
      SliceUntouched(t, owner, key, o, k);
    }
  }

  lemma SliceUntouched(t: Table, owner: nat, key: Key, o: Outcome, k: Key)
    requires TableOk(t) && key !in t.cache && WellFormed(o) && k in t.cache
    ensures var r := Place(t, owner, key, o); var c := t.cache[k];
      && r.cache[k] == c
      && Piece(r.frames, c) == Piece(t.frames, c) && Piece(r.ids, c) == Piece(t.ids, c)
  {
    hide VacantOk, SlotsOk;
    var c := t.cache[k];
    var r := Place(t, owner, key, o);
    var (reuse, slot, vacant) := Reusable(t, key);
    if |o.frames| == 1 && reuse {
      ReusableIsFree(t, key);
      assert Outside(slot, c);
      assert r == PlaceAt(t, owner, key, o, slot, vacant);
      assert r.frames[c.start..c.end] == t.frames[c.start..c.end];
      assert r.ids[c.start..c.end] == t.ids[c.start..c.end];
    } else {
      assert r == Append(t, owner, key, o);
      assert r.frames[c.start..c.end] == t.frames[c.start..c.end];
      assert r.ids[c.start..c.end] == t.ids[c.start..c.end];
    }
  }

  ghost function Issue(issued: map<nat, Frame>, next: nat, frames: seq<Frame>): (r: map<nat, Frame>)
    ensures forall s :: s in r <==> s in issued || next <= s < next + |frames|
    ensures forall i :: 0 <= i < |frames| ==> r[next + i] == frames[i]
    ensures forall s :: s in issued && s < next ==> r[s] == issued[s]
    decreases |frames|
  {
    if frames == [] then issued
    else
      var init := frames[..|frames| - 1];
      Issue(issued, next, init)[next + |init| := frames[|init|]]
  }

  /** Keys are never reissued: a new outcome takes new serials, and every key in
      the array still denotes the frame it was issued for. */
  lemma PlaceKeepsKeys(t: Table, owner: nat, key: Key, o: Outcome, issued: map<nat, Frame>)
    requires TableOk(t) && key !in t.cache && WellFormed(o)
    requires KeysOk(t, owner, issued)
    ensures KeysOk(Place(t, owner, key, o), owner, Issue(issued, t.next, o.frames))
  {
    hide VacantOk, SlotsOk, RangesOk, Issue;
    var r := Place(t, owner, key, o);
    var now := Issue(issued, t.next, o.frames);
    var (reuse, slot, vacant) := Reusable(t, key);
    if |o.frames| == 1 && reuse {
      ReusableIsFree(t, key);
      assert now[t.next + 0] == o.frames[0];
    } else {
      forall i | 0 <= i < |r.ids|
        ensures r.ids[i].owner == owner && r.ids[i].serial in now && now[r.ids[i].serial] == r.frames[i]
      {
        if |t.ids| <= i {
          assert r.ids[i] == NewKeys(owner, t.next, |o.frames|)[i - |t.ids|];
        }
      }
    }
  }
}
