/** Stacks as lists of indices into the frame table. */
module StackTable {
  import opened Bits
  import opened FrameTable
  import C = Compaction

  /** A frame of a spool stack: its id in the spool and whether it is a kernel frame. */
  datatype FrameRef = FrameRef(id: nat, kernel: bool)

  datatype StackKey = StackKey(source: nat, process: int, stack: nat)

  type Spool = StackKey -> seq<FrameRef>
  type Resolver = Key -> Outcome

  /** Kernel frames resolve alike in every process and share process 0. */
  function CacheKey(process: int, f: FrameRef): (k: Key) {
    Key(if f.kernel then 0 else process, f.id)
  }

  /** What the resolver says of one frame of a stack: of a kernel frame the same in every
      process, of any other frame as that process sees it. */
  ghost function AnswerTo(resolver: Resolver, process: int, f: FrameRef): Outcome {
    match f
    case FrameRef(id, true) => resolver(Key(0, id))
    case FrameRef(id, false) => resolver(Key(process, id))
  }

  /** Reference resolution: the frames of every answer, in stack order, uncached. */
  ghost function Uncached(resolver: Resolver, process: int, frames: seq<FrameRef>): (r: seq<Frame>) {
    if frames == [] then []
    else Uncached(resolver, process, frames[..|frames| - 1]) + AnswerTo(resolver, process, frames[|frames| - 1]).frames
  }

  /** Real processes share a cache entry exactly for the same kernel frame; otherwise only
      the same frame of the same process shares one. */
  lemma SharedKey(p: int, f: FrameRef, q: int, g: FrameRef)
    requires p > 0 && q > 0
    ensures CacheKey(p, f) == CacheKey(q, g) <==> f.id == g.id && f.kernel == g.kernel && (f.kernel || p == q)
  {
  }

  /** Frames the resolver gives for some keys together. */
  ghost function Cost(resolver: Resolver, keys: seq<Key>): nat {
    if keys == [] then 0 else Cost(resolver, keys[..|keys| - 1]) + |resolver(keys[|keys| - 1]).frames|
  }

  lemma CostNext(resolver: Resolver, keys: seq<Key>, i: nat)
    requires i < |keys|
    ensures Cost(resolver, keys[..i + 1]) == Cost(resolver, keys[..i]) + |resolver(keys[i]).frames|
  {
    assert keys[..i + 1][..i] == keys[..i];
  }

  lemma UncachedNext(resolver: Resolver, process: int, frames: seq<FrameRef>, i: nat)
    requires i < |frames|
    ensures |Uncached(resolver, process, frames[..i + 1])|
         == |Uncached(resolver, process, frames[..i])| + |AnswerTo(resolver, process, frames[i]).frames|
  {
    assert frames[..i + 1][..i] == frames[..i];
  }

  predicate AllCached(cache: map<Key, Cached>, process: int, frames: seq<FrameRef>) {
    forall f :: f in frames ==> CacheKey(process, f) in cache
  }

  /** The indices of a cached range as the source stores them: truncated to 32 bits. */
  function Truncated(c: Cached): (r: seq<nat>) {
    var start, end := c.start % U32_LIMIT, c.end % U32_LIMIT;
    if start <= end then seq(end - start, i requires 0 <= i => start + i) else []
  }

  function Run(c: Cached): (r: seq<nat>) {
    if c.start <= c.end then seq(c.end - c.start, i requires 0 <= i => c.start + i) else []
  }

  lemma NotTruncated(c: Cached)
    requires c.start <= c.end < U32_LIMIT
    ensures Truncated(c) == Run(c)
  {
  }

  /** The indices of a stack, frame by frame. */
  function Indices(cache: map<Key, Cached>, process: int, frames: seq<FrameRef>): (r: seq<nat>)
    requires AllCached(cache, process, frames)
  {
    if frames == [] then []
    else
      var last := frames[|frames| - 1];
      Indices(cache, process, frames[..|frames| - 1]) + Run(cache[CacheKey(process, last)])
  }

  predicate Within(indices: seq<nat>, n: nat) {
    forall i :: 0 <= i < |indices| ==> indices[i] < n
  }

  /** The frames a list of indices denotes. */
  function View(frames: seq<Frame>, indices: seq<nat>): (r: seq<Frame>)
    requires Within(indices, |frames|)
  {
    seq(|indices|, i requires 0 <= i < |indices| => frames[indices[i]])
  }

  ghost predicate Agree(t: Table, resolver: Resolver) {
    forall k {:trigger t.cache[k]} :: k in t.cache ==>
      && Piece(t.frames, t.cache[k]) == resolver(k).frames
      && t.cache[k].perfMapDependent == resolver(k).perfMapDependent
  }

  lemma RunViews(frames: seq<Frame>, c: Cached)
    requires c.start <= c.end <= |frames|
    ensures Within(Run(c), |frames|)
    ensures View(frames, Run(c)) == Piece(frames, c)
  {
  }

  lemma ViewConcat(frames: seq<Frame>, a: seq<nat>, b: seq<nat>)
    requires Within(a, |frames|) && Within(b, |frames|)
    ensures Within(a + b, |frames|)
    ensures View(frames, a + b) == View(frames, a) + View(frames, b)
  {
  }

  /** Reading a stack through its indices gives what resolving it afresh gives. */
  lemma {:induction false} IndicesView(t: Table, resolver: Resolver, process: int, frames: seq<FrameRef>)
    requires RangesOk(|t.frames|, t.cache) && Agree(t, resolver) && AllCached(t.cache, process, frames)
    ensures Within(Indices(t.cache, process, frames), |t.frames|)
    ensures View(t.frames, Indices(t.cache, process, frames)) == Uncached(resolver, process, frames)
  {
    if frames != [] {
      var init, last := frames[..|frames| - 1], frames[|frames| - 1];
      IndicesView(t, resolver, process, init);
      var c := t.cache[CacheKey(process, last)];
      RunViews(t.frames, c);
      hide View, Run, Within;
      ViewConcat(t.frames, Indices(t.cache, process, init), Run(c));
    }
  }

  lemma {:induction false} SameIndices(cache: map<Key, Cached>, other: map<Key, Cached>, process: int, frames: seq<FrameRef>)
    requires AllCached(cache, process, frames)
    requires forall f :: f in frames ==> CacheKey(process, f) in other && other[CacheKey(process, f)] == cache[CacheKey(process, f)]
    ensures AllCached(other, process, frames)
    ensures Indices(other, process, frames) == Indices(cache, process, frames)
  {
    if frames != [] {
      SameIndices(cache, other, process, frames[..|frames| - 1]);
      assert frames[|frames| - 1] in frames;
    }
  }

  /** Every cached stack lists exactly the cached ranges of its frames. */
  ghost predicate StacksOk(cache: map<Key, Cached>, ids: seq<nat>, stacks: map<StackKey, C.Range>, spool: Spool) {
    && C.InUse(stacks, |ids|)
    && forall k {:trigger stacks[k]} :: k in stacks ==>
         && AllCached(cache, k.process, spool(k))
         && C.Piece(ids, stacks[k]) == Indices(cache, k.process, spool(k))
  }

  /** Cached stacks survive when the ranges they use stay where they are. */
  lemma StacksKept(cache: map<Key, Cached>, other: map<Key, Cached>, ids: seq<nat>, stacks: map<StackKey, C.Range>, spool: Spool)
    requires StacksOk(cache, ids, stacks, spool)
    requires forall k, f :: k in stacks && f in spool(k) ==>
      var key := CacheKey(k.process, f); key in cache ==> key in other && other[key] == cache[key]
    ensures StacksOk(other, ids, stacks, spool)
  {
    forall k | k in stacks
      ensures AllCached(other, k.process, spool(k))
      ensures C.Piece(ids, stacks[k]) == Indices(other, k.process, spool(k))
    {
      assert AllCached(cache, k.process, spool(k));
      SameIndices(cache, other, k.process, spool(k));
    }
  }

  lemma InUseAdded(stacks: map<StackKey, C.Range>, n: nat, m: nat, key: StackKey)
    requires C.InUse(stacks, n) && n <= m
    ensures C.InUse(stacks[key := C.Range(n, m)], m)
  {
  }

  lemma PieceOfLonger(ids: seq<nat>, more: seq<nat>, r: C.Range)
    requires r.end <= |ids|
    ensures C.Piece(ids + more, r) == C.Piece(ids, r)
  {
  }

  /** Growing the index list leaves cached stacks alone and admits one more at the end. */
  lemma StackAdded(cache: map<Key, Cached>, ids: seq<nat>, stacks: map<StackKey, C.Range>, spool: Spool, key: StackKey)
    requires StacksOk(cache, ids, stacks, spool) && key !in stacks
    requires AllCached(cache, key.process, spool(key))
    ensures var added := Indices(cache, key.process, spool(key));
      StacksOk(cache, ids + added, stacks[key := C.Range(|ids|, |ids + added|)], spool)
  {
    var added := Indices(cache, key.process, spool(key));
    var all := stacks[key := C.Range(|ids|, |ids + added|)];
    hide Indices;
    InUseAdded(stacks, |ids|, |ids + added|, key);
    assert C.Piece(ids + added, all[key]) == added;
    forall k | k in stacks && k != key
      ensures C.Piece(ids + added, all[k]) == Indices(cache, k.process, spool(k))
    {
      PieceOfLonger(ids, added, stacks[k]);
    }
  }
}
