/** Resolving stacks through the frame cache and the stack cache. */
module Symbolizer {
  import opened Bits
  import opened FrameTable
  import opened StackTable
  import opened TableCompaction
  import C = Compaction

  datatype StackCacheMode = Internal | External

  datatype Failure = WrongSource | Native | CacheMiss | TooManyFrames

  datatype Resolved = Resolved(indices: seq<nat>, cacheable: bool) | Failed(failure: Failure)

  /** What one batch of spool records invalidates. */
  datatype Update = Update(kernelChanged: bool, invalidated: set<int>, perfMapChanged: set<int>, nativeChanged: set<int>)

  const MIN_STALE_FRAMES: nat := 4096

  function Stable(cache: map<Key, Cached>, transient: seq<Key>): (m: map<Key, Cached>) {
    map k | k in cache && k !in transient :: cache[k]
  }

  function KeySet(keys: seq<Key>): (s: set<Key>)
    ensures forall k :: k in s <==> k in keys
  {
    set k | k in keys
  }

  lemma ForgetKeepsTable(t: Table, keys: set<Key>, owner: nat, issued: map<nat, Frame>)
    requires TableOk(t) && KeysOk(t, owner, issued)
    ensures TableOk(t.(cache := t.cache - keys)) && KeysOk(t.(cache := t.cache - keys), owner, issued)
  {
  }

  lemma ForgottenIsStable(cache: map<Key, Cached>, transient: seq<Key>)
    ensures cache - KeySet(transient) == Stable(cache, transient)
    ensures Stable(Stable(cache, transient), []) == Stable(cache, transient)
  {
  }

  /** `pending` are keys of the stack that were not known before, and no key is missing. */
  ghost predicate Draws(process: int, frames: seq<FrameRef>, known: set<Key>, pending: seq<Key>) {
    && (forall k :: k in pending ==> k !in known && exists f :: f in frames && CacheKey(process, f) == k)
    && (forall f :: f in frames ==> CacheKey(process, f) in known || CacheKey(process, f) in pending)
  }

  lemma DrawsNew(process: int, frames: seq<FrameRef>, known: set<Key>, pending: seq<Key>)
    requires Draws(process, frames, known, pending)
    ensures (forall k :: k in pending ==> k !in known) && (pending != [] ==> frames != [])
  {
    assert pending != [] ==> pending[0] in pending;
  }

  /** Keys issued before still denote the same frames. */
  ghost predicate Extends(before: map<nat, Frame>, after: map<nat, Frame>) {
    forall s :: s in before ==> s in after && after[s] == before[s]
  }

  lemma NoCost(resolver: Resolver)
    ensures Cost(resolver, []) == 0
  {
  }

  predicate Distinct(keys: seq<Key>) {
    forall i, j :: 0 <= i < j < |keys| ==> keys[i] != keys[j]
  }

  lemma PlaceAgrees(t: Table, owner: nat, key: Key, resolver: Resolver)
    requires TableOk(t) && key !in t.cache && WellFormed(resolver(key)) && Agree(t, resolver)
    ensures Agree(Place(t, owner, key, resolver(key)), resolver)
    ensures Place(t, owner, key, resolver(key)).cache.Keys == t.cache.Keys + {key}
  {
    PlaceReads(t, owner, key, resolver(key));
    hide Place, Piece, TableOk;
    var r := Place(t, owner, key, resolver(key));
    forall k | k in r.cache
      ensures Piece(r.frames, r.cache[k]) == resolver(k).frames
      ensures r.cache[k].perfMapDependent == resolver(k).perfMapDependent
    {
      assert k == key || k in t.cache;
    }
  }

  lemma IssueExtends(t: Table, owner: nat, issued: map<nat, Frame>, frames: seq<Frame>)
    requires KeysOk(t, owner, issued)
    ensures Extends(issued, Issue(issued, t.next, frames))
  {
  }

  /** Cached stacks never use the slot a new result takes over. */
  lemma PlaceKeepsStacks(t: Table, owner: nat, key: Key, o: Outcome, transient: seq<Key>,
                         ids: seq<nat>, stacks: map<StackKey, C.Range>, spool: Spool)
    requires TableOk(t) && key !in t.cache && WellFormed(o)
    requires StacksOk(Stable(t.cache, transient), ids, stacks, spool)
    ensures StacksOk(Stable(Place(t, owner, key, o).cache, if o.retry then transient + [key] else transient), ids, stacks, spool)
  {
    PlaceReads(t, owner, key, o);
    hide TableOk, Place, Piece, StacksOk;
    var r := Place(t, owner, key, o);
    var later := if o.retry then transient + [key] else transient;
    forall k | k in Stable(t.cache, transient)
      ensures k in Stable(r.cache, later) && Stable(r.cache, later)[k] == Stable(t.cache, transient)[k]
    {
      assert r.cache[k] == t.cache[k];
    }
    StacksKept(Stable(t.cache, transient), Stable(r.cache, later), ids, stacks, spool);
  }

  class Symbolizer {
    const identity: nat
    const spool: Spool
    const limit: Option<nat>
    const mode: StackCacheMode
    var sourceId: Option<nat>
    var table: Table
    var transient: seq<Key>
    var stackIds: seq<nat>
    var stacks: map<StackKey, C.Range>
    var scratch: seq<nat>
    ghost var issued: map<nat, Frame>

    /** Holds also while a batch is being resolved. */
    ghost predicate Core()
      reads this
    {
      && TableOk(table) && KeysOk(table, identity, issued)
      && StacksOk(Stable(table.cache, transient), stackIds, stacks, spool)
      && (mode == External ==> stacks == map[])
    }

    ghost predicate Valid()
      reads this
    {
      Core() && transient == []
    }

    /** Everything cached is what the resolver would answer now; provisional
        answers are cached only while they are marked transient. */
    ghost predicate Follows(resolver: Resolver)
      reads this
    {
      && Agree(table, resolver)
      && (forall k :: k in table.cache ==> (k in transient <==> resolver(k).retry))
      && (forall k :: k in transient ==> k in table.cache)
    }

    constructor (identity: nat, spool: Spool, sourceId: Option<nat>, limit: Option<nat>, mode: StackCacheMode)
      ensures Valid() && table == Table([], [], 0, map[], map[], []) && transient == []
      ensures this.spool == spool && this.mode == mode && this.sourceId == sourceId && this.identity == identity
      ensures this.limit == limit
    {
      this.identity, this.spool, this.sourceId, this.limit, this.mode := identity, spool, sourceId, limit, mode;
      table := Table([], [], 0, map[], map[], []);
      transient, stackIds, stacks, scratch, issued := [], [], map[], [], map[];
    }

    /** Forget provisional results; their slots stay reserved for the retry. */
    method ClearTransientFrameCache()
      requires Core()
      modifies this`table, this`transient
      ensures Valid()
      ensures table == old(table).(cache := Stable(old(table.cache), old(transient)))
    {
      hide TableOk, KeysOk, StacksOk, Stable;
      ghost var was := table;
      var i := 0;
      while i < |transient|
        invariant 0 <= i <= |transient| && transient == old(transient)
        invariant table == was.(cache := was.cache - KeySet(transient[..i]))
      {
        table := table.(cache := table.cache - {transient[i]});
        assert KeySet(transient[..i + 1]) == KeySet(transient[..i]) + {transient[i]};
        i := i + 1;
      }
      assert transient[..i] == transient;
      ForgetKeepsTable(was, KeySet(transient), identity, issued);
      ForgottenIsStable(was.cache, transient);
      transient := [];
    }

    /** Enter one pending result, reusing a slot where the result is one frame. */
    method PlaceFrame(key: Key, o: Outcome)
      requires Core() && key !in table.cache && WellFormed(o)
      modifies this`table, this`transient, this`issued
      ensures Core()
      ensures table == Place(old(table), identity, key, o)
      ensures transient == old(transient) + (if o.retry then [key] else [])
      ensures Extends(old(issued), issued)
    {
      hide TableOk, StacksOk, KeysOk, Place, Issue, Extends;
      PlaceKeepsTable(table, identity, key, o);
      PlaceKeepsKeys(table, identity, key, o, issued);
      PlaceKeepsStacks(table, identity, key, o, transient, stackIds, stacks, spool);
      IssueExtends(table, identity, issued, o.frames);
      issued := Issue(issued, table.next, o.frames);
      table := EditTable(table, identity, key, o);
      if o.retry {
        transient := transient + [key];
      }
    }

    /** Enter the resolver's answer for one pending frame. */
    method PlacePending(key: Key, resolver: Resolver)
      requires Core() && Follows(resolver) && key !in table.cache && WellFormed(resolver(key))
      modifies this`table, this`transient, this`issued
      ensures Core() && Follows(resolver) && Extends(old(issued), issued)
      ensures table.cache.Keys == old(table.cache).Keys + {key}
      ensures |table.frames| <= |old(table.frames)| + |resolver(key).frames|
    {
      hide TableOk, StacksOk, KeysOk, Agree, Place, Extends, WellFormed;
      PlaceGrows(table, identity, key, resolver(key));
      ghost var was := table;
      PlaceAgrees(table, identity, key, resolver);
      PlaceFrame(key, resolver(key));
      assert forall k :: k in was.cache.Keys + {key} ==> k == key || k in was.cache;
    }

    /** Resolve the pending frames of a batch and cache every result. */
    method FinishFrameBatch(pending: seq<Key>, resolver: Resolver, failing: bool) returns (failure: Option<Failure>)
      requires Core() && Follows(resolver) && transient == []
      requires forall k :: WellFormed(resolver(k))
      requires Distinct(pending) && forall k :: k in pending ==> k !in table.cache
      modifies this`table, this`transient, this`issued
      ensures Core() && Follows(resolver) && Extends(old(issued), issued)
      ensures failure.Some? ==> transient == []
      ensures failure == Some(Native) <==> failing && pending != []
      ensures failure == Some(Native) ==> table == old(table)
      ensures failure != Some(Native) ==> failure == (if |table.frames| < U32_LIMIT then None else Some(TooManyFrames))
      ensures failure == None ==> table.cache.Keys == old(table.cache).Keys + KeySet(pending)
      ensures |table.frames| <= |old(table.frames)| + Cost(resolver, pending)
    {
      hide Core, Follows, WellFormed, Cost;
      if failing && pending != [] {
        return Some(Native);
      }
      NoCost(resolver);
      assert pending[..0] == [];
      for i := 0 to |pending|
        invariant Core() && Follows(resolver) && Extends(old(issued), issued)
        invariant table.cache.Keys == old(table.cache).Keys + KeySet(pending[..i])
        invariant |table.frames| <= |old(table.frames)| + Cost(resolver, pending[..i])
      {
        CostNext(resolver, pending, i);
        PlacePending(pending[i], resolver);
        assert KeySet(pending[..i + 1]) == KeySet(pending[..i]) + {pending[i]};
      }
      assert pending[..|pending|] == pending;
      if |table.frames| >= U32_LIMIT {
        DropProvisional(resolver);
        return Some(TooManyFrames);
      }
      return None;
    }

    /** Without its provisional entries the cache still follows the resolver. */
    method DropProvisional(resolver: Resolver)
      requires Core() && Follows(resolver)
      modifies this`table, this`transient
      ensures Valid() && Follows(resolver)
      ensures table == old(table).(cache := Stable(old(table.cache), old(transient)))
    {
      ClearTransientFrameCache();
      hide TableOk, StacksOk, KeysOk, Piece;
    }

    // ------------------------------------------------------------ clearing

    method ClearStackResolutionCache()
      modifies this`stacks, this`stackIds, this`scratch
      ensures stacks == map[] && stackIds == [] && scratch == []
    {
      stacks, stackIds, scratch := map[], [], [];
    }

    /** Forget every result; keys stay issued. */
    method ClearResolutionCache()
      requires Valid()
      modifies this
      ensures Valid() && issued == old(issued) && sourceId == old(sourceId)
      ensures table == Table([], [], old(table.next), map[], map[], []) && stacks == map[] && stackIds == []
      ensures transient == [] && scratch == []
    {
      hide TableOk, KeysOk, StacksOk;
      ClearTransientFrameCache();
      EmptyTableOk(table, identity, issued, spool);
      table := Table([], [], table.next, map[], map[], []);
      ClearStackResolutionCache();
    }

    predicate FrameResolutionCacheFull()
      reads this
    {
      |table.frames| >= U32_LIMIT || (limit.Some? && |table.frames| >= limit.value)
    }

    predicate StackResolutionCacheFull()
      reads this
    {
      limit.Some? && (|stackIds| >= limit.value || |stacks| >= limit.value)
    }

    method ClearResolutionCacheIfFull(ghost resolver: Resolver)
      requires Valid() && Follows(resolver)
      modifies this
      ensures Valid() && Follows(resolver) && issued == old(issued) && sourceId == old(sourceId)
      ensures |table.frames| < U32_LIMIT
      ensures if 0x1_0000_0000 <= |old(table.frames)| || (limit.Some? && limit.value <= |old(table.frames)|)
        then table == Table([], [], old(table.next), map[], map[], []) && stacks == map[] && stackIds == []
        else if limit.Some? && (limit.value <= |old(stackIds)| || limit.value <= |old(stacks)|)
        then table == old(table) && stacks == map[] && stackIds == []
        else table == old(table) && stacks == old(stacks) && stackIds == old(stackIds)
    {
      hide TableOk, KeysOk;
      if FrameResolutionCacheFull() {
        ClearResolutionCache();
      } else if StackResolutionCacheFull() {
        ClearStackResolutionCache();
      }
    }

    // ------------------------------------------------------------ resolving

    /** The distinct keys of a stack that are not cached yet. */
    method PrepareFrames(process: int, frames: seq<FrameRef>, ghost resolver: Resolver) returns (pending: seq<Key>)
      ensures Distinct(pending)
      ensures Cost(resolver, pending) <= |Uncached(resolver, process, frames)|
      ensures Draws(process, frames, table.cache.Keys, pending)
    {
      hide Cost, Uncached;
      pending := [];
      NoCost(resolver);
      for i := 0 to |frames|
        invariant Distinct(pending)
        invariant Cost(resolver, pending) <= |Uncached(resolver, process, frames[..i])|
        invariant forall k :: k in pending ==> k !in table.cache && exists f :: f in frames && CacheKey(process, f) == k
        invariant forall j :: 0 <= j < i ==> CacheKey(process, frames[j]) in table.cache || CacheKey(process, frames[j]) in pending
      {
        var k := CacheKey(process, frames[i]);
        UncachedNext(resolver, process, frames, i);
        if k !in table.cache && k !in pending {
          assert frames[i] in frames;
          CostNext(resolver, pending + [k], |pending|);
          assert (pending + [k])[..|pending|] == pending && (pending + [k])[..|pending| + 1] == pending + [k];
          pending := pending + [k];
        }
      }
      assert frames[..|frames|] == frames;
    }

    /** Append the cached indices of every frame as one stack entry, or nothing
        at all if a frame is not cached. */
    method CacheStackFrameIds(key: StackKey) returns (hit: bool)
      requires Valid() && mode == Internal && key !in stacks && |table.frames| < U32_LIMIT
      modifies this`stackIds, this`stacks
      ensures Valid()
      ensures hit <==> AllCached(table.cache, key.process, spool(key))
      ensures hit ==> key in stacks
      ensures !hit ==> stackIds == old(stackIds) && stacks == old(stacks)
    {
      hide KeysOk, StacksOk, SlotsOk, VacantOk, Indices;
      var frames := spool(key);
      var start := |stackIds|;
      StableOfNone(table.cache);
      NoIndices(table.cache, key.process);
      assert frames[..0] == [];
      for i := 0 to |frames|
        invariant stacks == old(stacks)
        invariant AllCached(table.cache, key.process, frames[..i])
        invariant stackIds == old(stackIds) + Indices(table.cache, key.process, frames[..i])
      {
        var k := CacheKey(key.process, frames[i]);
        if k !in table.cache {
          stackIds := stackIds[..start];
          assert frames[i] in frames;
          return false;
        }
        NotTruncated(table.cache[k]);
        OneMoreFrame(table.cache, key.process, frames, i);
        ConcatAssociative(old(stackIds), Indices(table.cache, key.process, frames[..i]), Run(table.cache[k]));
        stackIds := stackIds + Truncated(table.cache[k]);
      }
      assert frames[..|frames|] == frames;
      hide TableOk;
      StackAdded(table.cache, old(stackIds), stacks, spool, key);
      stacks := stacks[key := C.Range(start, |stackIds|)];
      return true;
    }

    /** A result that shows exactly what resolving the stack afresh shows, and
        that may be cached exactly when no frame of it is provisional. */
    ghost predicate Answers(r: Resolved, resolver: Resolver, key: StackKey)
      reads this
    {
      && r.Resolved?
      && Within(r.indices, |table.frames|)
      && View(table.frames, r.indices) == Uncached(resolver, key.process, spool(key))
      && (r.cacheable <==> forall f :: f in spool(key) ==> !AnswerTo(resolver, key.process, f).retry)
    }

    method CachedStack(key: StackKey, ghost resolver: Resolver) returns (r: Resolved)
      requires Valid() && Follows(resolver) && key in stacks
      ensures Answers(r, resolver, key)
    {
      StableOfNone(table.cache);
      hide KeysOk, SlotsOk, VacantOk, Indices, View, Uncached;
      IndicesView(table, resolver, key.process, spool(key));
      r := Resolved(C.Piece(stackIds, stacks[key]), true);
    }

    /** Collect the indices of a stack whose frames are all cached. */
    method CollectScratch(key: StackKey) returns (complete: bool)
      requires Core() && |table.frames| < U32_LIMIT
      modifies this`scratch
      ensures complete <==> AllCached(table.cache, key.process, spool(key))
      ensures complete ==> scratch == Indices(table.cache, key.process, spool(key))
    {
      hide KeysOk, StacksOk, SlotsOk, VacantOk;
      var frames := spool(key);
      scratch := [];
      for i := 0 to |frames|
        invariant AllCached(table.cache, key.process, frames[..i])
        invariant scratch == Indices(table.cache, key.process, frames[..i])
      {
        var k := CacheKey(key.process, frames[i]);
        if k !in table.cache {
          assert frames[i] in frames;
          return false;
        }
        NotTruncated(table.cache[k]);
        OneMoreFrame(table.cache, key.process, frames, i);
        scratch := scratch + Truncated(table.cache[k]);
      }
      assert frames[..|frames|] == frames;
      return true;
    }

    /** Resolve what is missing, then read the stack from the caches. */
    method ResolveFresh(key: StackKey, resolver: Resolver, failing: bool) returns (r: Resolved)
      requires Valid() && Follows(resolver) && |table.frames| < U32_LIMIT && key !in stacks
      requires forall k :: WellFormed(resolver(k))
      modifies this`table, this`transient, this`issued, this`scratch, this`stackIds, this`stacks
      ensures Valid() && Follows(resolver) && Extends(old(issued), issued)
      ensures Answers(r, resolver, key) || (r == Failed(Native) && failing && spool(key) != []) || r == Failed(TooManyFrames)
      ensures r == Failed(TooManyFrames) ==> U32_LIMIT <= |table.frames|
      ensures |table.frames| <= |old(table.frames)| + |Uncached(resolver, key.process, spool(key))|
    {
      ghost var before := table.cache.Keys;
      SettledBefore(resolver);
      hide Symbolizer.Core, Symbolizer.Follows, WellFormed, Extends, Uncached, Cost, Symbolizer.Answers, Draws;
      var pending := PrepareFrames(key.process, spool(key), resolver);
      DrawsNew(key.process, spool(key), before, pending);
      var failure := FinishFrameBatch(pending, resolver, failing);
      if failure.Some? {
        return Failed(failure.value);
      }
      r := AnswerResolved(key, resolver, pending, before);
    }

    lemma SettledBefore(resolver: Resolver)
      requires Valid() && Follows(resolver)
      ensures forall k :: k in table.cache ==> !resolver(k).retry
    {
    }

    /** Read a stack whose frames have just been resolved: from a new stack entry, or from
        the scratch list if a frame of it is provisional or stacks are cached elsewhere. */
    method AnswerResolved(key: StackKey, resolver: Resolver, ghost pending: seq<Key>, ghost before: set<Key>) returns (r: Resolved)
      requires Core() && Follows(resolver) && |table.frames| < U32_LIMIT && key !in stacks
      requires table.cache.Keys == before + KeySet(pending) && forall k :: k in before ==> !resolver(k).retry
      requires Draws(key.process, spool(key), before, pending)
      modifies this`table, this`transient, this`scratch, this`stackIds, this`stacks
      ensures Valid() && Follows(resolver) && Answers(r, resolver, key)
      ensures table.frames == old(table.frames)
    {
      hide TableOk, KeysOk, StacksOk, Agree, Indices, View, Uncached;
      assert AllCached(table.cache, key.process, spool(key));
      if mode == Internal && transient == [] {
        var hit := CacheStackFrameIds(key);
        if !hit {
          return Failed(CacheMiss);
        }
        r := CachedStack(key, resolver);
      } else {
        r := AnswerFromScratch(key, resolver, pending, before);
      }
    }

    method AnswerFromScratch(key: StackKey, resolver: Resolver, ghost pending: seq<Key>, ghost before: set<Key>) returns (r: Resolved)
      requires Core() && Follows(resolver) && |table.frames| < U32_LIMIT
      requires AllCached(table.cache, key.process, spool(key))
      requires table.cache.Keys == before + KeySet(pending) && forall k :: k in before ==> !resolver(k).retry
      requires forall k :: k in pending ==> exists f :: f in spool(key) && CacheKey(key.process, f) == k
      modifies this`table, this`transient, this`scratch
      ensures Valid() && Follows(resolver) && Answers(r, resolver, key)
      ensures table.frames == old(table.frames)
    {
      hide KeysOk, StacksOk, Agree, Indices, View, Uncached, SlotsOk, VacantOk;
      var cacheable := transient == [];
      var complete := CollectScratch(key);
      if !complete {
        return Failed(CacheMiss);
      }
      IndicesView(table, resolver, key.process, spool(key));
      TransientMeansRetry(key, pending, resolver, before);
      r := Resolved(scratch, cacheable);
      hide TableOk;
      DropProvisional(resolver);
    }

    /** Something is provisional exactly when a frame of the stack is. */
    lemma TransientMeansRetry(key: StackKey, pending: seq<Key>, resolver: Resolver, before: set<Key>)
      requires Follows(resolver) && AllCached(table.cache, key.process, spool(key))
      requires table.cache.Keys == before + KeySet(pending)
      requires forall k :: k in before ==> !resolver(k).retry
      requires forall k :: k in pending ==> exists f :: f in spool(key) && CacheKey(key.process, f) == k
      ensures transient == [] <==> forall f :: f in spool(key) ==> !AnswerTo(resolver, key.process, f).retry
    {
      if transient != [] {
        var k := transient[0];
        assert k in transient && k in table.cache && resolver(k).retry;
        assert k in pending;
        var f :| f in spool(key) && CacheKey(key.process, f) == k;
      } else {
        forall f | f in spool(key)
          ensures !AnswerTo(resolver, key.process, f).retry
        {
          assert CacheKey(key.process, f) in table.cache;
        }
      }
    }

    /** Resolve one stack. */
    method Resolve(key: StackKey, resolver: Resolver, failing: bool) returns (r: Resolved)
      requires Valid() && Follows(resolver)
      requires forall k :: WellFormed(resolver(k))
      modifies this
      ensures Valid() && Follows(resolver) && Extends(old(issued), issued)
      ensures r == Failed(WrongSource) <==> old(sourceId).Some? && old(sourceId).value != key.source
      ensures sourceId == if old(sourceId) == None then Some(key.source) else old(sourceId)
      ensures r.Failed? ==> r.failure == WrongSource || (r.failure == Native && failing && spool(key) != []) || r.failure == TooManyFrames
      ensures r == Failed(TooManyFrames) ==> U32_LIMIT <= |table.frames|
      ensures |table.frames| <= |old(table.frames)| + |Uncached(resolver, key.process, spool(key))|
      ensures r.Resolved? ==> Answers(r, resolver, key)
    {
      hide TableOk, KeysOk, StacksOk, Agree, WellFormed, View, Uncached;
      if sourceId.Some? && sourceId.value != key.source {
        return Failed(WrongSource);
      }
      sourceId := Some(key.source);
      if mode == Internal && key in stacks {
        r := CachedStack(key, resolver);
        return;
      }
      ClearResolutionCacheIfFull(resolver);
      if mode == Internal && transient == [] {
        var hit := CacheStackFrameIds(key);
        if hit {
          r := CachedStack(key, resolver);
          return;
        }
      }
      r := ResolveFresh(key, resolver, failing);
    }

    // --------------------------------------------------------- invalidation

    /** Close the gaps in the index list, in place. */
    method CompactResolvedStackFrameIds()
      requires Valid()
      modifies this`stackIds, this`stacks
      ensures Valid() && stacks.Keys == old(stacks).Keys
      ensures forall k :: k in stacks ==> C.Piece(stackIds, stacks[k]) == old(C.Piece(stackIds, stacks[k]))
      ensures C.Gapless(stacks, |stackIds|)
    {
      hide TableOk, KeysOk, C.InUse, C.SortedKeys, C.Total, C.Gapless;
      StacksInUse(Stable(table.cache, transient), stackIds, stacks, spool);
      var packed, moved := C.CompactInPlace(stackIds, stacks);
      PackedStacks(Stable(table.cache, transient), stackIds, stacks, spool, packed, moved);
      stackIds, stacks := packed, moved;
    }

    /** Drop stale frames once they are worth dropping. */
    method CompactResolvedFramesIfNeeded(ghost resolver: Resolver)
      requires Valid() && Follows(resolver)
      modifies this`table, this`stackIds, this`stacks, this`scratch
      ensures Valid() && Follows(resolver) && table.cache.Keys == old(table.cache).Keys
      ensures var kept := |Covered(old(table))|; var stale := |old(table.frames)| - kept;
        if 0 < stale && (4096 <= stale || kept / 2 <= stale)
        then Repacked(old(table), table) && |table.frames| == |Covered(old(table))| <= |old(table.frames)| && stacks == map[] && stackIds == []
        else table == old(table) && stacks == old(stacks) && stackIds == old(stackIds)
    {
      hide TableOk, KeysOk, StacksOk, Piece, Covered, Repacked, Agree;
      var retained := RetainedFrames(table);
      if !WorthCompacting(|table.frames|, retained) {
        return;
      }
      var packed := CompactTable(table);
      EmptyStacksOk(packed.cache, spool);
      RepackedFollows(table, packed, resolver);
      table := packed;
      ClearStackResolutionCache();
    }

    /** The cached results of a key survive an update. */
    static predicate Survives(u: Update, k: Key, perfMapDependent: bool) {
      || k.process <= 0
      || k.process !in u.invalidated
      || (k.process in u.perfMapChanged && k.process !in u.nativeChanged && !perfMapDependent)
    }

    /** The frame results an update leaves cached. */
    static function Surviving(u: Update, cache: map<Key, Cached>): (r: map<Key, Cached>) {
      map k | k in cache && Survives(u, k, cache[k].perfMapDependent) :: cache[k]
    }

    /** The stacks an update leaves cached. */
    static function SurvivingStacks(u: Update, stacks: map<StackKey, C.Range>): (r: map<StackKey, C.Range>) {
      map k | k in stacks && k.process !in u.invalidated :: stacks[k]
    }

    /** Forget what an update invalidates: frames by their own key, stacks by process. */
    method RetainUnaffected(u: Update, ghost before: Resolver, ghost after: Resolver)
      requires Valid() && Follows(before) && Honours(u, before, after) && !u.kernelChanged
      modifies this`table, this`stacks
      ensures Valid() && Follows(after)
      ensures table == old(table).(cache := Surviving(u, old(table.cache)))
      ensures forall k :: k in table.cache <==>
        && k in old(table.cache)
        && (|| k.process <= 0
            || k.process !in u.invalidated
            || (k.process in u.perfMapChanged && k.process !in u.nativeChanged && !old(table.cache)[k].perfMapDependent))
      ensures mode == Internal ==> forall k :: k in stacks <==> k in old(stacks) && k.process !in u.invalidated
      ensures stacks == if mode == Internal then SurvivingStacks(u, old(stacks)) else old(stacks)
    {
      hide TableOk, KeysOk, StacksOk, Piece, Honours;
      ghost var was := table;
      var kept := Surviving(u, table.cache);
      KeepFewer(table, kept, identity, issued);
      KeptAgree(table, kept, u, before, after);
      table := table.(cache := kept);
      StableOfNone(was.cache);
      StableOfNone(kept);
      if mode == Internal {
        var left := SurvivingStacks(u, stacks);
        FewerStacks(was.cache, stackIds, stacks, spool, left);
        StacksKept(was.cache, kept, stackIds, left, spool);
        stacks := left;
      } else {
        NoStacks(was.cache, kept, stackIds, spool);
      }
    }

    /** Apply one batch of spool records to the caches. */
    method Apply(u: Update, ghost before: Resolver, ghost after: Resolver)
      requires Valid() && Follows(before) && Honours(u, before, after)
      modifies this
      ensures Valid() && Follows(after)
      ensures issued == old(issued) && sourceId == old(sourceId)
      ensures |table.frames| <= |old(table.frames)|
      ensures u.kernelChanged || old(IsFull(|table.frames|, limit)) ==> table.cache == map[] && stacks == map[]
      ensures !u.kernelChanged && !old(IsFull(|table.frames|, limit)) ==>
        var kept := Surviving(u, old(table.cache));
        && table.cache.Keys == kept.Keys
        && (WorthCompacting(|old(table.frames)|, |Covered(old(table).(cache := kept))|) && u.invalidated != {} ==> stacks == map[])
        && (!WorthCompacting(|old(table.frames)|, |Covered(old(table).(cache := kept))|) && mode == Internal ==>
              stacks.Keys == SurvivingStacks(u, old(stacks)).Keys)
        && (mode == Internal && u.invalidated != {} ==> C.Gapless(stacks, |stackIds|))
    {
      hide TableOk, KeysOk, StacksOk, Covered, Repacked;
      if u.kernelChanged || FrameResolutionCacheFull() {
        ClearResolutionCache();
        return;
      }
      if u.invalidated == {} {
        NothingInvalidated(u, table.cache, stacks);
        return;
      }
      RetainUnaffected(u, before, after);
      if mode == Internal {
        CompactResolvedStackFrameIds();
      }
      CompactResolvedFramesIfNeeded(after);
    }
  }

  /** The resolver may change its answer only where it was provisional or where
      the update says so. */
  ghost predicate Honours(u: Update, before: Resolver, after: Resolver) {
    forall k :: !before(k).retry && !Affected(u, k, before(k)) ==> after(k) == before(k)
  }

  predicate Affected(u: Update, k: Key, o: Outcome) {
    || u.kernelChanged
    || (k.process > 0 && k.process in u.invalidated
        && !(k.process in u.perfMapChanged && k.process !in u.nativeChanged && !o.perfMapDependent))
  }

  /** Too many frames for 32-bit indices, or for the limit that was set. */
  ghost predicate IsFull(frames: nat, limit: Option<nat>) {
    0x1_0000_0000 <= frames || (limit.Some? && limit.value <= frames)
  }

  /** Stale frames are dropped once there are many of them, or many for what is kept. */
  predicate WorthCompacting(frames: nat, retained: nat) {
    var stale := SatSub(frames, retained);
    stale != 0 && (stale >= MIN_STALE_FRAMES || stale >= retained / 2)
  }

  lemma NothingInvalidated(u: Update, cache: map<Key, Cached>, stacks: map<StackKey, C.Range>)
    requires u.invalidated == {}
    ensures Symbolizer.Surviving(u, cache) == cache && Symbolizer.SurvivingStacks(u, stacks) == stacks
  {
  }

  lemma RepackedFollows(t: Table, r: Table, resolver: Resolver)
    requires Repacked(t, r) && Agree(t, resolver)
    ensures Agree(r, resolver) && r.cache.Keys == t.cache.Keys
  {
  }

  lemma KeepFewer(t: Table, kept: map<Key, Cached>, owner: nat, issued: map<nat, Frame>)
    requires TableOk(t) && KeysOk(t, owner, issued)
    requires forall k :: k in kept ==> k in t.cache && kept[k] == t.cache[k]
    ensures TableOk(t.(cache := kept)) && KeysOk(t.(cache := kept), owner, issued)
  {
  }

  /** What survives is still what the changed resolver answers. */
  lemma KeptAgree(t: Table, kept: map<Key, Cached>, u: Update, before: Resolver, after: Resolver)
    requires Agree(t, before) && Honours(u, before, after) && !u.kernelChanged
    requires forall k :: k in t.cache ==> !before(k).retry
    requires kept == Symbolizer.Surviving(u, t.cache)
    ensures Agree(t.(cache := kept), after)
    ensures forall k :: k in kept ==> !after(k).retry
  {
    forall k | k in kept
      ensures after(k) == before(k)
    {
      assert !Affected(u, k, before(k));
    }
  }

  lemma FewerStacks(cache: map<Key, Cached>, ids: seq<nat>, stacks: map<StackKey, C.Range>, spool: Spool,
                    left: map<StackKey, C.Range>)
    requires StacksOk(cache, ids, stacks, spool)
    requires forall k :: k in left ==> k in stacks && left[k] == stacks[k]
    ensures StacksOk(cache, ids, left, spool)
  {
  }

  lemma NoStacks(cache: map<Key, Cached>, other: map<Key, Cached>, ids: seq<nat>, spool: Spool)
    requires StacksOk(cache, ids, map[], spool)
    ensures StacksOk(other, ids, map[], spool)
  {
  }

  lemma StacksInUse(cache: map<Key, Cached>, ids: seq<nat>, stacks: map<StackKey, C.Range>, spool: Spool)
    requires StacksOk(cache, ids, stacks, spool)
    ensures C.InUse(stacks, |ids|)
  {
  }

  lemma EmptyStacksOk(cache: map<Key, Cached>, spool: Spool)
    ensures StacksOk(Stable(cache, []), [], map[], spool)
  {
  }

  lemma PackedStacks(cache: map<Key, Cached>, ids: seq<nat>, stacks: map<StackKey, C.Range>, spool: Spool,
                     packed: seq<nat>, moved: map<StackKey, C.Range>)
    requires StacksOk(cache, ids, stacks, spool)
    requires moved.Keys == stacks.Keys && C.InUse(moved, |packed|)
    requires forall k :: k in stacks ==> C.Piece(packed, moved[k]) == C.Piece(ids, stacks[k])
    ensures StacksOk(cache, packed, moved, spool)
  {
  }

  lemma EmptyTableOk(t: Table, owner: nat, issued: map<nat, Frame>, spool: Spool)
    requires KeysOk(t, owner, issued)
    ensures var e := Table([], [], t.next, map[], map[], []);
      TableOk(e) && KeysOk(e, owner, issued) && StacksOk(Stable(e.cache, []), [], map[], spool)
  {
  }

  lemma StableOfNone(cache: map<Key, Cached>)
    ensures Stable(cache, []) == cache
  {
  }

  lemma NoIndices(cache: map<Key, Cached>, process: int)
    ensures Indices(cache, process, []) == []
  {
  }

  lemma OneMoreFrame(cache: map<Key, Cached>, process: int, frames: seq<FrameRef>, i: nat)
    requires i < |frames| && AllCached(cache, process, frames[..i]) && CacheKey(process, frames[i]) in cache
    ensures AllCached(cache, process, frames[..i + 1])
    ensures Indices(cache, process, frames[..i + 1])
         == Indices(cache, process, frames[..i]) + Run(cache[CacheKey(process, frames[i])])
  {
    assert frames[..i + 1][..i] == frames[..i];
  }

  /** The array edits that enter one result, step by step. */
  method EditTable(t: Table, owner: nat, key: Key, o: Outcome) returns (r: Table)
    requires TableOk(t) && key !in t.cache && WellFormed(o)
    ensures r == Place(t, owner, key, o)
  {
    hide VacantOk, SlotsOk, RangesOk;
    var frames := t.frames + o.frames;
    var ids := t.ids + NewKeys(owner, t.next, |o.frames|);
    var slots, vacant := t.slots - {key}, t.vacant;
    var start, end := |t.frames|, |frames|;
    if end - start == 1 {
      var reusable := if key in t.slots then Some(t.slots[key]) else None;
      if reusable == None && vacant != [] {
        reusable := Some(vacant[|vacant| - 1]);
        vacant := vacant[..|vacant| - 1];
      }
      if reusable.Some? {
        ReusableIsFree(t, key);
        start, end := reusable.value, reusable.value + 1;
        assert frames[..|frames| - 1] == t.frames && ids[..|ids| - 1] == t.ids;
        frames := frames[..|frames| - 1][start := frames[|frames| - 1]];
        ids := ids[..|ids| - 1][start := ids[|ids| - 1]];
      }
    } else if key in t.slots {
      vacant := vacant + [t.slots[key]];
    }
    if o.retry {
      slots := slots[key := start];
      assert slots == t.slots[key := start];
    }
    r := Table(frames, ids, t.next + |o.frames|, t.cache[key := Cached(start, end, o.perfMapDependent)], slots, vacant);
  }

  // ------------------------------------------------------------- whole histories

  /** One request to the symbolizer, with the resolver's answers at that time. */
  datatype Op =
    | ResolveOp(key: StackKey, resolver: Resolver, failing: bool)
    | UpdateOp(update: Update, resolver: Resolver)

  datatype Reply = Frames(frames: seq<Frame>, keys: seq<FrameKey>, cacheable: bool) | Refused(failure: Failure) | Updated

  /** Between updates a settled answer never changes; an update may change only
      what it invalidates. */
  ghost predicate Honest(resolver: Resolver, ops: seq<Op>)
    decreases |ops|
  {
    ops != [] ==>
      && (forall k :: WellFormed(ops[0].resolver(k)))
      && Honours(if ops[0].UpdateOp? then ops[0].update else NOTHING, resolver, ops[0].resolver)
      && Honest(ops[0].resolver, ops[1..])
  }

  const NOTHING := Update(false, {}, {}, {})

  /** The spool source a symbolizer is bound to after some requests: the one it was
      built for, or else the one of the first stack it was given. */
  function Bound(source: Option<nat>, ops: seq<Op>): (r: Option<nat>)
    decreases |ops|
  {
    if source.Some? || ops == [] then source
    else Bound(if ops[0].ResolveOp? then Some(ops[0].key.source) else None, ops[1..])
  }

  lemma {:induction false} BoundNext(source: Option<nat>, ops: seq<Op>, i: nat)
    requires i < |ops|
    ensures var before := Bound(source, ops[..i]);
      Bound(source, ops[..i + 1]) == if before == None && ops[i].ResolveOp? then Some(ops[i].key.source) else before
    decreases |ops|
  {
    if i == 0 {
      assert ops[..1][1..] == [];
      assert Bound(source, ops[..0]) == source;
    } else {
      BoundNext(if source == None && ops[0].ResolveOp? then Some(ops[0].key.source) else source, ops[1..], i - 1);
      assert ops[..i + 1][1..] == ops[1..][..i] && ops[..i][1..] == ops[1..][..i - 1];
    }
  }

  /** Frames the resolver gives for all the stacks of some requests together. */
  ghost function Produced(spool: Spool, ops: seq<Op>): nat {
    if ops == [] then 0
    else Produced(spool, ops[..|ops| - 1]) + ProducedBy(spool, ops[|ops| - 1])
  }

  ghost function ProducedBy(spool: Spool, op: Op): nat {
    if op.ResolveOp? then |Uncached(op.resolver, op.key.process, spool(op.key))| else 0
  }

  lemma ProducedNext(spool: Spool, ops: seq<Op>, i: nat)
    requires i < |ops|
    ensures Produced(spool, ops[..i + 1]) == Produced(spool, ops[..i]) + ProducedBy(spool, ops[i])
  {
    assert ops[..i + 1][..i] == ops[..i];
  }

  /** What an uncached symbolizer that is bound to `source` replies. A stack is refused for
      its size only once the resolver has given `produced`, that is 2^32 or more, frames. */
  ghost predicate Expected(op: Op, spool: Spool, source: Option<nat>, produced: nat, reply: Reply) {
    match op
    case UpdateOp(_, _) => reply == Updated
    case ResolveOp(key, resolver, failing) =>
      (reply == Refused(WrongSource) <==> source.Some? && source.value != key.source) &&
      match reply
      case Frames(frames, keys, cacheable) =>
        && frames == Uncached(resolver, key.process, spool(key))
        && |keys| == |frames|
        && (cacheable <==> forall f :: f in spool(key) ==> !AnswerTo(resolver, key.process, f).retry)
      case Refused(failure) =>
        || failure == WrongSource
        || (failure == Native && failing && spool(key) != [])
        || (failure == TooManyFrames && U32_LIMIT <= produced)
      case Updated => false
  }

  lemma ExpectedWithMore(op: Op, spool: Spool, source: Option<nat>, fewer: nat, more: nat, reply: Reply)
    requires Expected(op, spool, source, fewer, reply) && fewer <= more
    ensures Expected(op, spool, source, more, reply)
  {
  }

  /** Equal keys always come with equal frames, in one reply or in two. */
  ghost predicate KeysAreStable(replies: seq<Reply>) {
    forall a, b :: 0 <= a < |replies| && 0 <= b < |replies| ==> SameMeaning(replies[a], replies[b])
  }

  ghost predicate SameMeaning(a: Reply, b: Reply) {
    a.Frames? && b.Frames? && |a.keys| == |a.frames| && |b.keys| == |b.frames| ==>
      forall i, j :: 0 <= i < |a.keys| && 0 <= j < |b.keys| && a.keys[i] == b.keys[j] ==> a.frames[i] == b.frames[j]
  }

  /** Every key handed out denotes the frame it came with. */
  ghost predicate KeysMean(replies: seq<Reply>, owner: nat, issued: map<nat, Frame>) {
    forall a {:trigger replies[a]} :: 0 <= a < |replies| && replies[a].Frames? ==> Means(replies[a], owner, issued)
  }

  ghost predicate Means(reply: Reply, owner: nat, issued: map<nat, Frame>)
    requires reply.Frames?
  {
    && |reply.keys| == |reply.frames|
    && forall i :: 0 <= i < |reply.keys| ==>
         && reply.keys[i].owner == owner && reply.keys[i].serial in issued
         && issued[reply.keys[i].serial] == reply.frames[i]
  }

  lemma MeaningsStay(replies: seq<Reply>, owner: nat, before: map<nat, Frame>, after: map<nat, Frame>)
    requires KeysMean(replies, owner, before) && Extends(before, after)
    ensures KeysMean(replies, owner, after)
  {
  }

  lemma MeaningsAreStable(replies: seq<Reply>, owner: nat, issued: map<nat, Frame>)
    requires KeysMean(replies, owner, issued)
    ensures KeysAreStable(replies)
  {
    forall a, b | 0 <= a < |replies| && 0 <= b < |replies| && replies[a].Frames? && replies[b].Frames?
      ensures SameMeaning(replies[a], replies[b])
    {
      assert Means(replies[a], owner, issued) && Means(replies[b], owner, issued);
    }
  }

  function KeyView(ids: seq<FrameKey>, indices: seq<nat>): (r: seq<FrameKey>)
    requires Within(indices, |ids|)
  {
    seq(|indices|, i requires 0 <= i < |indices| => ids[indices[i]])
  }

  /** A settled cache follows any resolver that kept its settled answers. */
  lemma Refollows(t: Table, before: Resolver, after: Resolver)
    requires Agree(t, before) && Honours(NOTHING, before, after)
    requires forall k :: k in t.cache ==> !before(k).retry
    ensures Agree(t, after) && forall k :: k in t.cache ==> !after(k).retry
  {
    forall k | k in t.cache
      ensures after(k) == before(k)
    {
      assert !Affected(NOTHING, k, before(k));
    }
  }

  /** Carry out one request. */
  method Perform(s: Symbolizer, op: Op, ghost before: Resolver) returns (reply: Reply)
    requires s.Valid() && s.Follows(before) && (forall k :: WellFormed(op.resolver(k)))
    requires Honours(if op.UpdateOp? then op.update else NOTHING, before, op.resolver)
    modifies s
    ensures s.Valid() && s.Follows(op.resolver) && Extends(old(s.issued), s.issued)
    ensures Expected(op, s.spool, old(s.sourceId), |old(s.table.frames)| + ProducedBy(s.spool, op), reply)
    ensures |s.table.frames| <= |old(s.table.frames)| + ProducedBy(s.spool, op)
    ensures s.sourceId == if old(s.sourceId) == None && op.ResolveOp? then Some(op.key.source) else old(s.sourceId)
    ensures reply.Frames? ==> Means(reply, s.identity, s.issued)
  {
    hide TableOk, StacksOk, Agree, WellFormed, View, Uncached;
    match op
    case UpdateOp(u, resolver) =>
      s.Apply(u, before, resolver);
      reply := Updated;
    case ResolveOp(key, resolver, failing) =>
      Refollows(s.table, before, resolver);
      var r := s.Resolve(key, resolver, failing);
      match r
      case Failed(failure) => reply := Refused(failure);
      case Resolved(indices, cacheable) =>
        reply := Frames(View(s.table.frames, indices), KeyView(s.table.ids, indices), cacheable);
        ViewedKeysMean(s.table, s.identity, s.issued, indices, reply);
  }

  lemma ViewedKeysMean(t: Table, owner: nat, issued: map<nat, Frame>, indices: seq<nat>, reply: Reply)
    requires KeysOk(t, owner, issued) && Within(indices, |t.frames|)
    requires reply.Frames? && reply.frames == View(t.frames, indices) && reply.keys == KeyView(t.ids, indices)
    ensures Means(reply, owner, issued)
  {
  }

  /** For every honest history, in either cache mode and under any cache limit,
      the caches are invisible: each reply is what resolving afresh gives, and a
      frame key never changes its meaning. */
  method Replay(identity: nat, spool: Spool, source: Option<nat>, limit: Option<nat>, mode: StackCacheMode,
                ghost initial: Resolver, ops: seq<Op>) returns (replies: seq<Reply>)
    requires Honest(initial, ops)
    ensures |replies| == |ops|
    ensures forall i :: 0 <= i < |ops| ==> Expected(ops[i], spool, Bound(source, ops[..i]), Produced(spool, ops[..i + 1]), replies[i])
    ensures KeysAreStable(replies)
  {
    hide TableOk, StacksOk, KeysOk, Expected, Honours, Means, WellFormed, KeysAreStable, Honest, Produced, ProducedBy, Bound;
    var s := new Symbolizer(identity, spool, source, limit, mode);
    replies := [];
    ghost var current := initial;
    NothingYet(spool, source);
    assert ops[..0] == [] && ops[0..] == ops;
    for i := 0 to |ops|
      invariant fresh(s) && s.spool == spool && s.identity == identity
      invariant s.Valid() && s.Follows(current) && Honest(current, ops[i..])
      invariant |s.table.frames| <= Produced(spool, ops[..i]) && s.sourceId == Bound(source, ops[..i])
      invariant |replies| == i && KeysMean(replies, identity, s.issued)
      invariant forall j :: 0 <= j < i ==>
        Expected(ops[j], spool, Bound(source, ops[..j]), Produced(spool, ops[..j + 1]), replies[j])
    {
      hide Symbolizer.Core, Symbolizer.Follows, KeysMean;
      ghost var before, had := s.issued, |s.table.frames| + ProducedBy(spool, ops[i]);
      HonestNext(current, ops, i);
      BoundNext(source, ops, i);
      ProducedNext(spool, ops, i);
      var reply := Perform(s, ops[i], current);
      ExpectedWithMore(ops[i], spool, Bound(source, ops[..i]), had, Produced(spool, ops[..i + 1]), reply);
      MeaningsStay(replies, identity, before, s.issued);
      MeansNext(replies, identity, s.issued, reply);
      replies := replies + [reply];
      current := ops[i].resolver;
    }
    MeaningsAreStable(replies, identity, s.issued);
  }

  lemma MeansNext(replies: seq<Reply>, owner: nat, issued: map<nat, Frame>, reply: Reply)
    requires KeysMean(replies, owner, issued) && (reply.Frames? ==> Means(reply, owner, issued))
    ensures KeysMean(replies + [reply], owner, issued)
  {
  }

  lemma NothingYet(spool: Spool, source: Option<nat>)
    ensures Produced(spool, []) == 0 && Bound(source, []) == source
  {
  }

  lemma HonestNext(resolver: Resolver, ops: seq<Op>, i: nat)
    requires i < |ops| && Honest(resolver, ops[i..])
    ensures forall k :: WellFormed(ops[i].resolver(k))
    ensures Honours(if ops[i].UpdateOp? then ops[i].update else NOTHING, resolver, ops[i].resolver)
    ensures Honest(ops[i].resolver, ops[i + 1..])
  {
    assert ops[i..][0] == ops[i] && ops[i..][1..] == ops[i + 1..];
  }
}
