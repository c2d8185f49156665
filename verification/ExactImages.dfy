/** The bounded store of exact ELF images, shared by the modules that map them. */
module ExactImages {
  import opened Bits
  import opened ImageLimits

  const MAX_EXACT_IMAGE_ALIASES: nat := 4096

  /** A module's image (its address), the bytes its sections own, and its token. */
  datatype Retained = Retained(image: nat, bytes: Usize, token: nat)

  type Usize = n: nat | n <= USIZE_MAX

  datatype Ref = Ref(count: nat, bytes: nat, token: nat)

  /** The same image, however many hold it. */
  predicate SameImage(a: Ref, b: Ref) {
    a.bytes == b.bytes && a.token == b.token
  }

  ghost function Holders(byModule: map<nat, Retained>, image: nat): set<nat> {
    set m | m in byModule && byModule[m].image == image
  }

  /** Bytes owned by all distinct images. */
  ghost function Sum(refs: map<nat, Ref>): nat {
    if refs == map[] then 0
    else
      var i :| i in refs;
      refs[i].bytes + Sum(refs - {i})
  }

  lemma {:induction false} SumWithout(refs: map<nat, Ref>, i: nat)
    requires i in refs
    ensures Sum(refs) == refs[i].bytes + Sum(refs - {i})
    decreases |refs|
  {
    var j :| j in refs && Sum(refs) == refs[j].bytes + Sum(refs - {j});
    if j != i {
      SumWithout(refs - {j}, i);
      SumWithout(refs - {i}, j);
      assert refs - {j} - {i} == refs - {i} - {j};
    }
  }

  lemma {:induction false} SumDependsOnBytes(a: map<nat, Ref>, b: map<nat, Ref>)
    requires a.Keys == b.Keys && forall i :: i in a ==> a[i].bytes == b[i].bytes
    ensures Sum(a) == Sum(b)
    decreases |a|
  {
    if a != map[] {
      var i :| i in a;
      SumWithout(a, i);
      SumWithout(b, i);
      SumDependsOnBytes(a - {i}, b - {i});
    } else {
      assert b == map[];
    }
  }

  /** Every module's image is retained under the module's token. */
  ghost predicate Linked(byModule: map<nat, Retained>, refs: map<nat, Ref>) {
    forall m {:trigger byModule[m]} :: m in byModule ==>
      byModule[m].image in refs && refs[byModule[m].image].token == byModule[m].token
  }

  /** Every retained image is counted once for each of its holders, and has one. */
  ghost predicate CountsOk(byModule: map<nat, Retained>, refs: map<nat, Ref>) {
    forall i {:trigger refs[i]} :: i in refs ==> refs[i].count == |Holders(byModule, i)| && refs[i].count > 0
  }

  ghost predicate TokensOk(refs: map<nat, Ref>, nextToken: nat) {
    && (forall i {:trigger refs[i]} :: i in refs ==> refs[i].token < nextToken)
    && (forall i, j {:trigger refs[i], refs[j]} :: i in refs && j in refs && i != j ==> refs[i].token != refs[j].token)
  }

  /** Counts, bytes and tokens agree with the modules. `excess` is what a
      saturated byte total falls short of the true one. */
  ghost predicate Counted(byModule: map<nat, Retained>, refs: map<nat, Ref>, owned: nat, excess: nat, nextToken: nat) {
    Linked(byModule, refs) && CountsOk(byModule, refs) && TokensOk(refs, nextToken) && owned + excess == Sum(refs)
  }

  /** The queue lists every module once. */
  ghost predicate Queued(order: seq<nat>, byModule: map<nat, Retained>) {
    (forall m :: m in order <==> m in byModule) && Distinct(order)
  }

  predicate WithinLimits(byModule: map<nat, Retained>, refs: map<nat, Ref>, owned: nat) {
    && |byModule| <= MAX_EXACT_IMAGE_ALIASES
    && |refs| <= MAX_SHARED_ELF_IMAGES
    && owned <= MAX_SHARED_ELF_OWNED_BYTES
  }

  /** Two modules share a token exactly when they share the live image. */
  lemma TokensIdentifyImages(byModule: map<nat, Retained>, refs: map<nat, Ref>, owned: nat, nextToken: nat, m: nat, n: nat)
    requires Counted(byModule, refs, owned, 0, nextToken) && m in byModule && n in byModule
    ensures byModule[m].token == byModule[n].token <==> byModule[m].image == byModule[n].image
  {
  }

  /** No modules, no images, no bytes. */
  lemma NothingRetained(byModule: map<nat, Retained>, refs: map<nat, Ref>, owned: nat, excess: nat, nextToken: nat)
    requires Counted(byModule, refs, owned, excess, nextToken) && byModule == map[]
    ensures refs == map[] && owned == 0
  {
    assert forall i :: i in refs ==> Holders(byModule, i) == {};
    assert refs.Keys == {};
  }

  /** The references after module `m` takes `image`. */
  function AddRef(refs: map<nat, Ref>, image: nat, bytes: nat, token: nat): (r: map<nat, Ref>) {
    if image in refs
    then refs[image := refs[image].(count := refs[image].count + 1)]
    else refs[image := Ref(1, bytes, token)]
  }

  lemma HoldersGrow(byModule: map<nat, Retained>, m: nat, x: Retained, i: nat)
    requires m !in byModule
    ensures |Holders(byModule[m := x], i)| == |Holders(byModule, i)| + (if i == x.image then 1 else 0)
  {
    if i == x.image {
      assert Holders(byModule[m := x], i) == Holders(byModule, i) + {m};
    } else {
      assert Holders(byModule[m := x], i) == Holders(byModule, i);
    }
  }

  lemma NoHolders(byModule: map<nat, Retained>, refs: map<nat, Ref>, owned: nat, excess: nat, nextToken: nat, i: nat)
    requires Counted(byModule, refs, owned, excess, nextToken) && i !in refs
    ensures Holders(byModule, i) == {}
  {
  }

  lemma LinkedWith(byModule: map<nat, Retained>, refs: map<nat, Ref>, m: nat, x: Retained, refs': map<nat, Ref>)
    requires Linked(byModule, refs) && x.image in refs' && refs'[x.image].token == x.token
    requires forall i :: i in refs ==> i in refs' && refs'[i].token == refs[i].token
    ensures Linked(byModule[m := x], refs')
  {
  }

  lemma CountsWith(byModule: map<nat, Retained>, refs: map<nat, Ref>, m: nat, x: Retained, refs': map<nat, Ref>)
    requires CountsOk(byModule, refs) && m !in byModule && (x.image !in refs ==> Holders(byModule, x.image) == {})
    requires refs'.Keys == refs.Keys + {x.image}
    requires forall i :: i in refs' ==>
      refs'[i].count == (if i in refs then refs[i].count else 0) + (if i == x.image then 1 else 0)
    ensures CountsOk(byModule[m := x], refs')
  {
    hide Holders;
    forall i | i in refs'
      ensures refs'[i].count == |Holders(byModule[m := x], i)| && refs'[i].count > 0
    {
      HoldersGrow(byModule, m, x, i);
      assert i in refs || i == x.image;
    }
  }

  /** One more module on a retained image only raises its count. */
  lemma AddHolder(byModule: map<nat, Retained>, refs: map<nat, Ref>, owned: nat, nextToken: nat, m: nat, image: nat, bytes: Usize)
    requires Counted(byModule, refs, owned, 0, nextToken) && m !in byModule && image in refs
    ensures Counted(byModule[m := Retained(image, bytes, refs[image].token)], AddRef(refs, image, bytes, nextToken), owned, 0, nextToken)
  {
    hide Sum, Linked, CountsOk, TokensOk, Holders;
    var refs' := AddRef(refs, image, bytes, nextToken);
    var x := Retained(image, bytes, refs[image].token);
    SumDependsOnBytes(refs, refs');
    assert refs'.Keys == refs.Keys + {image};
    TokensStay(refs, refs', nextToken);
    LinkedWith(byModule, refs, m, x, refs');
    CountsWith(byModule, refs, m, x, refs');
  }

  lemma TokensStay(refs: map<nat, Ref>, refs': map<nat, Ref>, nextToken: nat)
    requires TokensOk(refs, nextToken) && forall i :: i in refs' ==> i in refs && refs'[i].token == refs[i].token
    ensures TokensOk(refs', nextToken)
  {
  }

  lemma TokensNew(refs: map<nat, Ref>, nextToken: nat, image: nat, bytes: nat)
    requires TokensOk(refs, nextToken) && image !in refs
    ensures TokensOk(AddRef(refs, image, bytes, nextToken), nextToken + 1)
  {
  }

  /** A new image takes the next token and adds its bytes, saturating. */
  lemma AddImage(byModule: map<nat, Retained>, refs: map<nat, Ref>, owned: nat, nextToken: nat, m: nat, image: nat, bytes: Usize)
    requires Counted(byModule, refs, owned, 0, nextToken) && m !in byModule && image !in refs && owned <= USIZE_MAX
    ensures Counted(byModule[m := Retained(image, bytes, nextToken)], AddRef(refs, image, bytes, nextToken),
                    SatAdd(owned, bytes), owned + bytes - SatAdd(owned, bytes), nextToken + 1)
  {
    hide Sum, Linked, CountsOk, TokensOk, Holders;
    var refs' := AddRef(refs, image, bytes, nextToken);
    var x := Retained(image, bytes, nextToken);
    SumWithout(refs', image);
    assert refs' - {image} == refs;
    NoHolders(byModule, refs, owned, 0, nextToken, image);
    TokensNew(refs, nextToken, image, bytes);
    LinkedWith(byModule, refs, m, x, refs');
    CountsWith(byModule, refs, m, x, refs');
  }

  /** The references after a module gives up `image`. */
  function DropRef(refs: map<nat, Ref>, image: nat): (r: map<nat, Ref>)
    requires image in refs && refs[image].count > 0
  {
    if refs[image].count == 1 then refs - {image} else refs[image := refs[image].(count := refs[image].count - 1)]
  }

  lemma HoldersShrink(byModule: map<nat, Retained>, m: nat, i: nat)
    requires m in byModule
    ensures |Holders(byModule - {m}, i)| == |Holders(byModule, i)| - (if i == byModule[m].image then 1 else 0)
  {
    if i == byModule[m].image {
      assert Holders(byModule, i) == Holders(byModule - {m}, i) + {m};
    } else {
      assert Holders(byModule - {m}, i) == Holders(byModule, i);
    }
  }

  lemma DropCounts(byModule: map<nat, Retained>, refs: map<nat, Ref>, m: nat)
    requires Linked(byModule, refs) && CountsOk(byModule, refs) && m in byModule
    ensures byModule[m].image in refs && refs[byModule[m].image].count > 0
    ensures Linked(byModule - {m}, DropRef(refs, byModule[m].image)) && CountsOk(byModule - {m}, DropRef(refs, byModule[m].image))
  {
    var image := byModule[m].image;
    var refs' := DropRef(refs, image);
    HoldersShrink(byModule, m, image);
    forall i | i in refs'
      ensures refs'[i].count == |Holders(byModule - {m}, i)| && refs'[i].count > 0
    {
      HoldersShrink(byModule, m, i);
    }
    forall n | n in byModule - {m}
      ensures byModule[n].image in refs' && refs'[byModule[n].image].token == byModule[n].token
    {
      if byModule[n].image == image {
        assert n in Holders(byModule - {m}, image);
      }
    }
  }

  /** Removing a module keeps the counts and frees an image nobody holds. */
  lemma DropKeepsCounts(byModule: map<nat, Retained>, refs: map<nat, Ref>, owned: nat, excess: nat, nextToken: nat, m: nat)
    requires Counted(byModule, refs, owned, excess, nextToken) && m in byModule
    ensures byModule[m].image in refs && refs[byModule[m].image].count > 0
    ensures Freed(refs, byModule[m].image) <= owned + excess
    ensures Counted(byModule - {m}, DropRef(refs, byModule[m].image), SatSub(owned, Freed(refs, byModule[m].image)),
                    owned + excess - Freed(refs, byModule[m].image) - SatSub(owned, Freed(refs, byModule[m].image)), nextToken)
  {
    hide Linked, CountsOk, TokensOk, Holders, Sum;
    DropCounts(byModule, refs, m);
    var image := byModule[m].image;
    var refs' := DropRef(refs, image);
    TokensStay(refs, refs', nextToken);
    SumWithout(refs, image);
    if refs[image].count > 1 {
      SumDependsOnBytes(refs, refs');
    }
  }

  /** Bytes given back when one holder of `image` goes. */
  function Freed(refs: map<nat, Ref>, image: nat): (n: nat)
    requires image in refs
  {
    if refs[image].count == 1 then refs[image].bytes else 0
  }

  class ExactImageStore {
    var byModule: map<nat, Retained>
    var order: seq<nat>
    var refs: map<nat, Ref>
    var ownedBytes: nat
    var nextToken: nat

    ghost predicate Valid()
      reads this
    {
      && Counted(byModule, refs, ownedBytes, 0, nextToken)
      && Queued(order, byModule)
      && WithinLimits(byModule, refs, ownedBytes)
    }

    constructor (nextToken: nat)
      ensures Valid() && byModule == map[] && order == [] && this.nextToken == nextToken
    {
      byModule, order, refs, ownedBytes := map[], [], map[], 0;
      this.nextToken := nextToken;
    }

    /** Release a module's image; an image nobody holds is forgotten. */
    method RemoveEntry(m: nat, ghost excess: nat) returns (ghost left: nat)
      requires Counted(byModule, refs, ownedBytes, excess, nextToken)
      modifies this`byModule, this`refs, this`ownedBytes
      ensures Counted(byModule, refs, ownedBytes, left, nextToken)
      ensures byModule == old(byModule) - {m} && ownedBytes <= old(ownedBytes)
      ensures m !in old(byModule) ==> refs == old(refs) && left == excess
      ensures m in old(byModule) ==>
        var image := old(byModule)[m].image;
        && image in old(refs) && old(refs)[image].count > 0 && refs == DropRef(old(refs), image)
        && ownedBytes == SatSub(old(ownedBytes), Freed(old(refs), image))
        && left == old(ownedBytes) + excess - Freed(old(refs), image) - ownedBytes
    {
      hide Counted;
      if m !in byModule {
        assert byModule - {m} == byModule;
        return excess;
      }
      DropKeepsCounts(byModule, refs, ownedBytes, excess, nextToken, m);
      var image := byModule[m].image;
      var ref := refs[image];
      left := ownedBytes + excess - Freed(refs, image) - SatSub(ownedBytes, Freed(refs, image));
      byModule := byModule - {m};
      if ref.count == 1 {
        ownedBytes := SatSub(ownedBytes, ref.bytes);
        refs := refs - {image};
      } else {
        refs := refs[image := ref.(count := ref.count - 1)];
      }
    }

    /** Forget a module and its place in the queue. */
    method Forget(m: nat)
      requires Valid()
      modifies this`byModule, this`refs, this`ownedBytes, this`order
      ensures Valid() && byModule == old(byModule) - {m} && order == Without(old(order), m)
      ensures m !in old(byModule) ==> refs == old(refs)
      ensures forall i :: i in refs ==> i in old(refs) && SameImage(refs[i], old(refs)[i])
      ensures nextToken == old(nextToken)
    {
      hide Counted, Queued, Without;
      if m in byModule {
        ImageFits(byModule, refs, ownedBytes, nextToken, m);
        FewerRefs(refs, byModule[m].image);
      }
      ghost var left := RemoveEntry(m, 0);
      order := Without(order, m);
      FewerModules(old(byModule), m);
      QueuedWithout(old(order), old(byModule), m);
    }

    /** Add a module that is not held yet; `excess` records a saturated byte total. */
    method Add(m: nat, image: nat, bytes: Usize) returns (ghost excess: nat)
      requires Valid() && m !in byModule
      modifies this
      ensures Counted(byModule, refs, ownedBytes, excess, nextToken) && Queued(order, byModule)
      ensures Pinned(excess, m, image, byModule, refs, order)
      ensures order == old(order) + [m] && byModule.Keys == old(byModule).Keys + {m}
      ensures byModule == old(byModule)[m := byModule[m]] && byModule[m].image == image
      ensures byModule[m] == Retained(image, bytes, if image in old(refs) then old(refs)[image].token else old(nextToken))
      ensures refs == AddRef(old(refs), image, bytes, old(nextToken))
      ensures nextToken == if image in old(refs) then old(nextToken) else old(nextToken) + 1
    {
      hide Counted, Queued;
      var token := if image in refs then refs[image].token else nextToken;
      QueuedAdd(order, byModule, m, Retained(image, bytes, token));
      if image in refs {
        AddHolder(byModule, refs, ownedBytes, nextToken, m, image, bytes);
        excess := 0;
      } else {
        AddImage(byModule, refs, ownedBytes, nextToken, m, image, bytes);
        excess := ownedBytes + bytes - SatAdd(ownedBytes, bytes);
      }
      if image !in refs {
        ownedBytes := SatAdd(ownedBytes, bytes);
        nextToken := nextToken + 1;
      }
      refs := AddRef(refs, image, bytes, token);
      assert refs == AddRef(old(refs), image, bytes, old(nextToken));
      byModule := byModule[m := Retained(image, bytes, token)];
      order := order + [m];
    }

    /** Drop the module at the front of the queue. */
    method EvictOldest(ghost m: nat, ghost image: nat, ghost excess: nat) returns (ghost left: nat)
      requires Counted(byModule, refs, ownedBytes, excess, nextToken) && Queued(order, byModule) && order != []
      requires Pinned(excess, m, image, byModule, refs, order)
      modifies this`byModule, this`refs, this`ownedBytes, this`order
      ensures Counted(byModule, refs, ownedBytes, left, nextToken) && Queued(order, byModule)
      ensures Pinned(left, m, image, byModule, refs, order)
      ensures order == old(order)[1..] && byModule == old(byModule) - {old(order)[0]}
      ensures forall i :: i in refs ==> i in old(refs) && SameImage(refs[i], old(refs)[i])
    {
      hide Counted, Sum, Holders;
      PinnedSum(excess, m, image, byModule, refs, ownedBytes, order, nextToken);
      var oldest := order[0];
      order := order[1..];
      left := RemoveEntry(oldest, excess);
    }

    /** The modules held, oldest first, with what their images count for. */
    ghost function Contents(): Store
      requires Valid()
      reads this
    {
      CountedIsBacked(order, byModule, refs, ownedBytes, 0, nextToken);
      Store(Listing(order, byModule, refs), nextToken)
    }

    /** Hold `image` for module `m`, then evict the oldest modules until every limit holds. */
    method Insert(m: nat, image: nat, bytes: Usize)
      requires Valid()
      modifies this
      ensures Valid() && Contents() == InsertInto(old(Contents()), m, image, bytes)
    {
      hide Counted, Pinned, Queued, WithinLimits, InsertInto, Listing;
      ghost var before := Contents();
      CountedIsBacked(order, byModule, refs, ownedBytes, 0, nextToken);
      HoldsListed(order, byModule, refs, m, image) by { assert Queued(order, byModule); }
      if m in byModule && byModule[m].image == image {
        AlreadyHeld(before, m, image, bytes);
        return;
      }
      Forget(m);
      CountedIsBacked(order, byModule, refs, ownedBytes, 0, nextToken);
      ListingWithout(old(order), old(byModule), old(refs), m, refs);
      ghost var rest := Listing(order, byModule, refs);
      FindListed(order, byModule, refs, ownedBytes, nextToken, image);
      ghost var was, had := byModule, refs;
      ghost var excess := Add(m, image, bytes);
      CountedIsBacked(order, byModule, refs, ownedBytes, excess, nextToken);
      ListingAppend(old(order), was, had, m, byModule[m], refs, order);
      EvictUntilWithinLimits(m, image, excess);
      NewlyHeld(before, m, image, bytes);
    }

    /** Evict from the front of the queue while a limit is exceeded. */
    method EvictUntilWithinLimits(ghost m: nat, ghost image: nat, ghost excess0: nat)
      requires Counted(byModule, refs, ownedBytes, excess0, nextToken) && Queued(order, byModule)
      requires Pinned(excess0, m, image, byModule, refs, order) && Backed(order, byModule, refs)
      modifies this`byModule, this`refs, this`ownedBytes, this`order
      ensures Valid()
      ensures Contents().items == Trim(old(Listing(order, byModule, refs)), Within)
    {
      hide Counted, Pinned, Queued, Fits, Sum, IsSuffix, WithinLimits, Listing, Within;
      WholeIsSuffix(order);
      ghost var excess := excess0;
      while !WithinLimits(byModule, refs, ownedBytes)
        invariant Counted(byModule, refs, ownedBytes, excess, nextToken) && Queued(order, byModule)
        invariant Pinned(excess, m, image, byModule, refs, order)
        invariant IsSuffix(order, old(order))
        invariant forall n :: n in byModule ==> n in old(byModule) && byModule[n] == old(byModule)[n]
        invariant forall i :: i in refs ==> i in old(refs) && SameImage(refs[i], old(refs)[i])
        invariant forall k :: 0 <= k < |old(order)| - |order| ==> !Fits(old(order)[k..], old(byModule), old(refs))
        decreases |order|
      {
        OverLimits(order, byModule, refs, ownedBytes, excess, nextToken, m, image, old(byModule), old(refs));
        if order == [] {
          EmptyQueue(order, byModule, refs, ownedBytes, excess, nextToken);
          break;
        }
        SuffixStep(order, old(order));
        excess := EvictOldest(m, image, excess);
      }
      Settled(excess, m, image, byModule, refs, ownedBytes, order, nextToken);
      InLimits(order, byModule, refs, ownedBytes, nextToken);
      CountedIsBacked(order, byModule, refs, ownedBytes, 0, nextToken);
      TrimmedListing(old(order), old(byModule), old(refs), order, byModule, refs);
    }

    /** Let `m` share what module `source` holds. */
    method Alias(source: nat, m: nat)
      requires Valid()
      modifies this
      ensures Valid() && Contents() == AliasInto(old(Contents()), source, m)
    {
      hide Counted, Queued, WithinLimits, InsertInto;
      CountedIsBacked(order, byModule, refs, ownedBytes, 0, nextToken);
      ModuleListed(order, byModule, refs, source) by { assert Queued(order, byModule); }
      if source in byModule {
        var retained := byModule[source];
        Insert(m, retained.image, retained.bytes);
      }
    }
  }

  // -------------------------------------------------------- the reference list

  /** A module held: its image, the bytes it brought, the bytes its image counts for, its token. */
  datatype Item = Item(m: nat, image: nat, bytes: Usize, charge: nat, token: nat)

  datatype Store = Store(items: seq<Item>, next: nat)

  ghost function ImagesIn(items: seq<Item>): set<nat> {
    if items == [] then {} else {items[0].image} + ImagesIn(items[1..])
  }

  /** Bytes of the distinct images. */
  ghost function Charge(items: seq<Item>): nat {
    if items == [] then 0
    else (if items[0].image in ImagesIn(items[1..]) then 0 else items[0].charge) + Charge(items[1..])
  }

  /** At most 4096 modules, 256 images, and 64 MiB of them together. */
  ghost predicate Within(items: seq<Item>) {
    |items| <= 4096 && |ImagesIn(items)| <= 256 && Charge(items) <= 0x400_0000
  }

  ghost function RemoveItem(items: seq<Item>, m: nat): seq<Item> {
    if items == [] then []
    else (if items[0].m == m then [] else [items[0]]) + RemoveItem(items[1..], m)
  }

  ghost function FindImage(items: seq<Item>, image: nat): (x: Item)
    requires image in ImagesIn(items)
    ensures x in items && x.image == image
  {
    if items[0].image == image then items[0] else FindImage(items[1..], image)
  }

  ghost predicate Lists(items: seq<Item>, m: nat) {
    exists i :: 0 <= i < |items| && items[i].m == m
  }

  ghost function FindModule(items: seq<Item>, m: nat): (x: Item)
    requires Lists(items, m)
    ensures x in items && x.m == m
  {
    var i :| 0 <= i < |items| && items[i].m == m;
    items[i]
  }

  ghost function NewItem(items: seq<Item>, next: nat, m: nat, image: nat, bytes: Usize): Item {
    if image in ImagesIn(items)
    then Item(m, image, bytes, FindImage(items, image).charge, FindImage(items, image).token)
    else Item(m, image, bytes, bytes, next)
  }

  /** Reference insertion: a module that already holds the image stays; otherwise it
      moves to the end and the oldest modules go until all three limits hold. */
  ghost function InsertInto(s: Store, m: nat, image: nat, bytes: Usize): Store {
    if Lists(s.items, m) && FindModule(s.items, m).image == image then s
    else
      var rest := RemoveItem(s.items, m);
      Store(Trim(rest + [NewItem(rest, s.next, m, image, bytes)], Within),
            if image in ImagesIn(rest) then s.next else s.next + 1)
  }

  ghost function AliasInto(s: Store, source: nat, m: nat): Store {
    if Lists(s.items, source)
    then InsertInto(s, m, FindModule(s.items, source).image, FindModule(s.items, source).bytes)
    else s
  }

  lemma AlreadyHeld(s: Store, m: nat, image: nat, bytes: Usize)
    requires Lists(s.items, m) && FindModule(s.items, m).image == image
    ensures InsertInto(s, m, image, bytes) == s
  {
  }

  lemma NewlyHeld(s: Store, m: nat, image: nat, bytes: Usize)
    requires !(Lists(s.items, m) && FindModule(s.items, m).image == image)
    ensures InsertInto(s, m, image, bytes) ==
      var rest := RemoveItem(s.items, m);
      Store(Trim(rest + [NewItem(rest, s.next, m, image, bytes)], Within),
            if image in ImagesIn(rest) then s.next else s.next + 1)
  {
  }

  // ------------------------------------------------- the store as a list of items

  ghost predicate Backed(order: seq<nat>, byModule: map<nat, Retained>, refs: map<nat, Ref>) {
    forall i :: 0 <= i < |order| ==> order[i] in byModule && byModule[order[i]].image in refs
  }

  ghost function ItemOf(m: nat, byModule: map<nat, Retained>, refs: map<nat, Ref>): Item
    requires m in byModule && byModule[m].image in refs
  {
    Item(m, byModule[m].image, byModule[m].bytes, refs[byModule[m].image].bytes, byModule[m].token)
  }

  ghost function Listing(order: seq<nat>, byModule: map<nat, Retained>, refs: map<nat, Ref>): (r: seq<Item>)
    requires Backed(order, byModule, refs)
    ensures |r| == |order| && forall i :: 0 <= i < |r| ==>
      order[i] in byModule && byModule[order[i]].image in refs && r[i] == ItemOf(order[i], byModule, refs)
  {
    seq(|order|, i requires 0 <= i < |order| => ItemOf(order[i], byModule, refs))
  }

  lemma CountedIsBacked(order: seq<nat>, byModule: map<nat, Retained>, refs: map<nat, Ref>, owned: nat, excess: nat, nextToken: nat)
    requires Counted(byModule, refs, owned, excess, nextToken) && Queued(order, byModule)
    ensures Backed(order, byModule, refs)
  {
  }

  lemma ModuleListed(order: seq<nat>, byModule: map<nat, Retained>, refs: map<nat, Ref>, m: nat)
    requires Backed(order, byModule, refs) && Queued(order, byModule)
    ensures Lists(Listing(order, byModule, refs), m) <==> m in byModule
    ensures m in byModule ==> m in order && FindModule(Listing(order, byModule, refs), m) == ItemOf(m, byModule, refs)
  {
    var items := Listing(order, byModule, refs);
    if m in byModule {
      var i :| 0 <= i < |order| && order[i] == m;
      assert items[i].m == m;
      var j :| 0 <= j < |items| && items[j] == FindModule(items, m);
    }
  }

  lemma HoldsListed(order: seq<nat>, byModule: map<nat, Retained>, refs: map<nat, Ref>, m: nat, image: nat)
    requires Backed(order, byModule, refs) && Queued(order, byModule)
    ensures var items := Listing(order, byModule, refs);
      (Lists(items, m) && FindModule(items, m).image == image) <==> (m in byModule && byModule[m].image == image)
  {
    ModuleListed(order, byModule, refs, m);
  }

  lemma {:induction false} InImages(items: seq<Item>, image: nat)
    ensures image in ImagesIn(items) <==> exists i :: 0 <= i < |items| && items[i].image == image
  {
    if items != [] {
      InImages(items[1..], image);
      if image in ImagesIn(items[1..]) {
        var i :| 0 <= i < |items[1..]| && items[1..][i].image == image;
        assert items[i + 1].image == image;
      }
      forall i | 0 < i < |items| && items[i].image == image
        ensures image in ImagesIn(items[1..])
      {
        assert items[1..][i - 1] == items[i];
      }
    }
  }

  /** The images of the list are those retained, with their bytes and tokens. */
  lemma FindListed(order: seq<nat>, byModule: map<nat, Retained>, refs: map<nat, Ref>, owned: nat, nextToken: nat, image: nat)
    requires Counted(byModule, refs, owned, 0, nextToken) && Queued(order, byModule) && Backed(order, byModule, refs)
    ensures image in ImagesIn(Listing(order, byModule, refs)) <==> image in refs
    ensures image in refs ==>
      var x := FindImage(Listing(order, byModule, refs), image); x.charge == refs[image].bytes && x.token == refs[image].token
  {
    var items := Listing(order, byModule, refs);
    InImages(items, image);
    if image in refs {
      assert refs[image].count == |Holders(byModule, image)| > 0;
      var n :| n in Holders(byModule, image);
      var i :| 0 <= i < |order| && order[i] == n;
      assert items[i].image == image;
    }
    if image in ImagesIn(items) {
      var x := FindImage(items, image);
      assert byModule[x.m].image == image;
    }
  }

  lemma ListingCons(order: seq<nat>, byModule: map<nat, Retained>, refs: map<nat, Ref>)
    requires order != [] && Backed(order, byModule, refs)
    ensures order[0] in byModule && byModule[order[0]].image in refs && Backed(order[1..], byModule, refs)
    ensures Listing(order, byModule, refs) == [ItemOf(order[0], byModule, refs)] + Listing(order[1..], byModule, refs)
  {
  }

  lemma {:induction false} ListingWithout(order: seq<nat>, byModule: map<nat, Retained>, refs: map<nat, Ref>, m: nat, refs': map<nat, Ref>)
    requires Backed(order, byModule, refs) && Backed(Without(order, m), byModule - {m}, refs')
    requires forall i :: i in refs' ==> i in refs && SameImage(refs'[i], refs[i])
    ensures Listing(Without(order, m), byModule - {m}, refs') == RemoveItem(Listing(order, byModule, refs), m)
  {
    if order != [] {
      var first, rest := order[0], order[1..];
      ListingCons(order, byModule, refs);
      var left := Without(rest, m);
      if first == m {
        assert Without(order, m) == left;
      } else {
        assert Without(order, m) == [first] + left && ([first] + left)[1..] == left;
        ListingCons([first] + left, byModule - {m}, refs');
      }
      ListingWithout(rest, byModule, refs, m, refs');
      hide Listing, Without;
      RemoveCons(ItemOf(first, byModule, refs), Listing(rest, byModule, refs), m);
    }
  }

  lemma RemoveCons(x: Item, rest: seq<Item>, m: nat)
    ensures RemoveItem([x] + rest, m) == if x.m == m then RemoveItem(rest, m) else [x] + RemoveItem(rest, m)
  {
    assert ([x] + rest)[1..] == rest;
    assert [] + RemoveItem(rest, m) == RemoveItem(rest, m);
  }

  lemma ListingAppend(whole: seq<nat>, byModule: map<nat, Retained>, refs: map<nat, Ref>, m: nat, x: Retained, refs': map<nat, Ref>, order: seq<nat>)
    requires order == Without(whole, m) + [m] && Backed(Without(whole, m), byModule, refs)
    requires x.image in refs' && forall i :: i in refs ==> i in refs' && SameImage(refs'[i], refs[i])
    requires Backed(order, byModule[m := x], refs')
    ensures Listing(order, byModule[m := x], refs') == Listing(Without(whole, m), byModule, refs) +
      [Item(m, x.image, x.bytes, refs'[x.image].bytes, x.token)]
  {
    var before := Without(whole, m);
    hide Without;
    forall i | 0 <= i < |before|
      ensures Listing(order, byModule[m := x], refs')[i] == Listing(before, byModule, refs)[i]
    {
      assert order[i] == before[i] && before[i] in before;
    }
  }

  /** What a part of the queue counts for is what the list says. */
  lemma {:induction false} HeldByListing(suffix: seq<nat>, byModule: map<nat, Retained>, refs: map<nat, Ref>)
    requires Backed(suffix, byModule, refs)
    ensures HeldBy(suffix, byModule, refs).Keys == ImagesIn(Listing(suffix, byModule, refs))
    ensures Sum(HeldBy(suffix, byModule, refs)) == Charge(Listing(suffix, byModule, refs))
  {
    var held := HeldBy(suffix, byModule, refs);
    if suffix == [] {
      assert held == map[];
    } else {
      var rest := suffix[1..];
      hide HeldBy, Listing, ImagesIn, Charge, Sum;
      ListingCons(suffix, byModule, refs);
      HeldByListing(rest, byModule, refs);
      HeldByCons(suffix, byModule, refs);
      var x, items := ItemOf(suffix[0], byModule, refs), Listing(rest, byModule, refs);
      ChargeCons(x, items);
      if x.image !in ImagesIn(items) {
        SumWithout(held, x.image);
      }
    }
  }

  lemma ChargeCons(x: Item, items: seq<Item>)
    ensures ImagesIn([x] + items) == {x.image} + ImagesIn(items)
    ensures Charge([x] + items) == (if x.image in ImagesIn(items) then 0 else x.charge) + Charge(items)
  {
    assert ([x] + items)[1..] == items;
  }

  lemma HeldByCons(suffix: seq<nat>, byModule: map<nat, Retained>, refs: map<nat, Ref>)
    requires suffix != [] && Backed(suffix, byModule, refs)
    ensures suffix[0] in byModule && byModule[suffix[0]].image in refs
    ensures var image := byModule[suffix[0]].image; var rest := HeldBy(suffix[1..], byModule, refs);
      && HeldBy(suffix, byModule, refs) == rest[image := refs[image]]
      && (image in rest ==> HeldBy(suffix, byModule, refs) == rest)
      && (image !in rest ==> HeldBy(suffix, byModule, refs) - {image} == rest)
  {
    var held, rest := HeldBy(suffix, byModule, refs), HeldBy(suffix[1..], byModule, refs);
    var image := byModule[suffix[0]].image;
    assert suffix[0] in suffix;
    forall i | i in held
      ensures i == image || i in rest
    {
      var m :| m in suffix && m in byModule && byModule[m].image == i;
      if m != suffix[0] {
        assert m in suffix[1..];
      }
    }
  }

  lemma FitsIsWithin(suffix: seq<nat>, byModule: map<nat, Retained>, refs: map<nat, Ref>)
    requires Backed(suffix, byModule, refs)
    ensures Fits(suffix, byModule, refs) <==> Within(Listing(suffix, byModule, refs))
  {
    HeldByListing(suffix, byModule, refs);
    var held := HeldBy(suffix, byModule, refs);
    assert |held| == |held.Keys|;
    assert |Listing(suffix, byModule, refs)| == |suffix|;
  }

  /** Within the limits, the whole queue fits. */
  lemma InLimits(order: seq<nat>, byModule: map<nat, Retained>, refs: map<nat, Ref>, owned: nat, nextToken: nat)
    requires Counted(byModule, refs, owned, 0, nextToken) && Queued(order, byModule) && WithinLimits(byModule, refs, owned)
    ensures Fits(order, byModule, refs)
  {
    AllHeld(order, byModule, refs, owned, 0, nextToken);
    QueueSize(order, byModule);
  }

  lemma AllHeld(order: seq<nat>, byModule: map<nat, Retained>, refs: map<nat, Ref>, owned: nat, excess: nat, nextToken: nat)
    requires Counted(byModule, refs, owned, excess, nextToken) && Queued(order, byModule)
    ensures HeldBy(order, byModule, refs) == refs
  {
    forall i | i in refs
      ensures i in HeldBy(order, byModule, refs)
    {
      assert refs[i].count == |Holders(byModule, i)| > 0;
      var n :| n in Holders(byModule, i);
      assert n in order && byModule[n].image == i;
    }
  }

  /** What eviction leaves, as a list, is the longest suffix that fits. */
  lemma TrimmedListing(whole: seq<nat>, was: map<nat, Retained>, all: map<nat, Ref>,
                       order: seq<nat>, byModule: map<nat, Retained>, refs: map<nat, Ref>)
    requires Backed(whole, was, all) && Backed(order, byModule, refs) && IsSuffix(order, whole)
    requires forall n :: n in byModule ==> n in was && byModule[n] == was[n]
    requires forall i :: i in refs ==> i in all && SameImage(refs[i], all[i])
    requires Fits(order, byModule, refs) && forall k :: 0 <= k < |whole| - |order| ==> !Fits(whole[k..], was, all)
    ensures Listing(order, byModule, refs) == Trim(Listing(whole, was, all), Within)
  {
    var k, items := |whole| - |order|, Listing(whole, was, all);
    forall i | 0 <= i <= |whole|
      ensures Backed(whole[i..], was, all) && Listing(whole[i..], was, all) == items[i..]
    {
    }
    assert Listing(order, byModule, refs) == items[k..];
    FitsIsWithin(order, byModule, refs);
    forall i | 0 <= i < k
      ensures !Within(items[i..])
    {
      FitsIsWithin(whole[i..], was, all);
    }
    hide Within, Listing, Fits;
    LongestFitIsTrim(items, Within, k);
  }

  /** The images held by a part of the queue. */
  ghost function HeldBy(suffix: seq<nat>, byModule: map<nat, Retained>, refs: map<nat, Ref>): map<nat, Ref> {
    map i | i in refs && exists m :: m in suffix && m in byModule && byModule[m].image == i :: refs[i]
  }

  /** A part of the queue that respects all three limits on its own. */
  ghost predicate Fits(suffix: seq<nat>, byModule: map<nat, Retained>, refs: map<nat, Ref>) {
    && |suffix| <= MAX_EXACT_IMAGE_ALIASES
    && |HeldBy(suffix, byModule, refs)| <= MAX_SHARED_ELF_IMAGES
    && Sum(HeldBy(suffix, byModule, refs)) <= MAX_SHARED_ELF_OWNED_BYTES
  }

  /** Eviction goes on only while what is left really exceeds a limit. */
  lemma OverLimits(order: seq<nat>, byModule: map<nat, Retained>, refs: map<nat, Ref>, owned: nat, excess: nat, nextToken: nat,
                   m: nat, image: nat, was: map<nat, Retained>, all: map<nat, Ref>)
    requires Counted(byModule, refs, owned, excess, nextToken) && Queued(order, byModule)
    requires forall n :: n in byModule ==> n in was && byModule[n] == was[n]
    requires forall i :: i in refs ==> i in all && SameImage(refs[i], all[i])
    requires !WithinLimits(byModule, refs, owned)
    ensures !Fits(order, was, all)
  {
    var held := HeldBy(order, was, all);
    forall i | i in refs
      ensures i in held
    {
      assert |Holders(byModule, i)| > 0;
      var n :| n in Holders(byModule, i);
      assert n in order && was[n].image == i;
    }
    assert held.Keys == refs.Keys;
    SumDependsOnBytes(held, refs);
    QueueSize(order, byModule);
  }

  lemma QueueSize(order: seq<nat>, byModule: map<nat, Retained>)
    requires Queued(order, byModule)
    ensures |order| == |byModule|
  {
    DistinctSize(order);
    assert Elements(order) == byModule.Keys;
  }

  ghost predicate IsSuffix(s: seq<nat>, whole: seq<nat>) {
    |s| <= |whole| && s == whole[|whole| - |s|..]
  }

  lemma WholeIsSuffix(whole: seq<nat>)
    ensures IsSuffix(whole, whole)
  {
  }

  lemma SuffixStep(order: seq<nat>, whole: seq<nat>)
    requires IsSuffix(order, whole) && order != []
    ensures IsSuffix(order[1..], whole) && |order| <= |whole| && whole[|whole| - |order|..] == order
  {
  }

  /** While the byte total is saturated, the image that saturated it is still
      held, by the newest module alone. */
  ghost predicate Pinned(excess: nat, m: nat, image: nat, byModule: map<nat, Retained>, refs: map<nat, Ref>, order: seq<nat>) {
    excess > 0 ==>
      && excess <= MAX_SHARED_ELF_OWNED_BYTES
      && m in byModule && byModule[m].image == image
      && image in refs && refs[image].count == 1 && refs[image].bytes > USIZE_MAX - MAX_SHARED_ELF_OWNED_BYTES
      && order != [] && order[|order| - 1] == m
  }

  lemma PinnedSum(excess: nat, m: nat, image: nat, byModule: map<nat, Retained>, refs: map<nat, Ref>, owned: nat,
                  order: seq<nat>, nextToken: nat)
    requires Counted(byModule, refs, owned, excess, nextToken) && Queued(order, byModule) && order != []
    requires Pinned(excess, m, image, byModule, refs, order)
    ensures var oldest := order[0];
      && oldest in byModule
      && byModule[oldest].image in refs
      && (excess > 0 && oldest == m ==> refs == map[image := refs[image]] && owned + excess == refs[image].bytes)
      && (excess > 0 && oldest != m ==>
            byModule[oldest].image != image && owned >= refs[byModule[oldest].image].bytes)
      && (excess == 0 ==> owned >= refs[byModule[oldest].image].bytes)
  {
    var oldest := order[0];
    assert oldest in order && oldest in byModule;
    var i := byModule[oldest].image;
    SumWithout(refs, i);
    if excess > 0 {
      if oldest == m {
        assert order == [m];
        forall j | j in refs
          ensures j == image
        {
          assert |Holders(byModule, j)| > 0;
          var n :| n in Holders(byModule, j);
          assert n in order;
        }
        assert refs.Keys == {image};
        assert refs - {image} == map[];
      } else {
        if i == image {
          assert {m, oldest} <= Holders(byModule, image);
          TwoElements(Holders(byModule, image), m, oldest);
        }
        assert image in refs - {i};
        SumWithout(refs - {i}, image);
      }
    }
  }

  lemma TwoElements(s: set<nat>, a: nat, b: nat)
    requires a in s && b in s && a != b
    ensures |s| >= 2
  {
    assert |s| == |s - {a}| + 1;
    assert b in s - {a};
  }

  lemma EmptyQueue(order: seq<nat>, byModule: map<nat, Retained>, refs: map<nat, Ref>, owned: nat, excess: nat, nextToken: nat)
    requires Counted(byModule, refs, owned, excess, nextToken) && Queued(order, byModule) && order == []
    ensures WithinLimits(byModule, refs, owned)
  {
    assert byModule.Keys == {};
    NothingRetained(byModule, refs, owned, excess, nextToken);
  }

  /** Once within the limits, the byte total is exact again. */
  lemma Settled(excess: nat, m: nat, image: nat, byModule: map<nat, Retained>, refs: map<nat, Ref>, owned: nat,
                order: seq<nat>, nextToken: nat)
    requires Counted(byModule, refs, owned, excess, nextToken) && WithinLimits(byModule, refs, owned)
    requires Pinned(excess, m, image, byModule, refs, order)
    ensures excess == 0
  {
    if excess > 0 {
      SumWithout(refs, image);
    }
  }

  lemma ImageFits(byModule: map<nat, Retained>, refs: map<nat, Ref>, owned: nat, nextToken: nat, m: nat)
    requires Counted(byModule, refs, owned, 0, nextToken) && m in byModule
    ensures byModule[m].image in refs && refs[byModule[m].image].bytes <= owned && refs[byModule[m].image].count > 0
  {
    SumWithout(refs, byModule[m].image);
  }

  lemma FewerRefs(refs: map<nat, Ref>, image: nat)
    requires image in refs && refs[image].count > 0
    ensures |DropRef(refs, image)| <= |refs|
  {
    assert DropRef(refs, image).Keys <= refs.Keys;
    SubsetSize(DropRef(refs, image).Keys, refs.Keys);
  }

  lemma FewerModules(byModule: map<nat, Retained>, m: nat)
    ensures |byModule - {m}| <= |byModule|
  {
    SubsetSize((byModule - {m}).Keys, byModule.Keys);
  }

  lemma QueuedWithout(order: seq<nat>, byModule: map<nat, Retained>, m: nat)
    requires Queued(order, byModule)
    ensures Queued(Without(order, m), byModule - {m})
  {
    hide Without;
    WithoutDistinct(order, m);
  }

  lemma QueuedAdd(order: seq<nat>, byModule: map<nat, Retained>, m: nat, x: Retained)
    requires Queued(order, byModule) && m !in byModule
    ensures Queued(order + [m], byModule[m := x])
  {
  }

  datatype Request = InsertRequest(m: nat, image: nat, bytes: Usize) | AliasRequest(source: nat, m: nat)

  /** Reference: the list after some requests. */
  ghost function Reference(firstToken: nat, requests: seq<Request>): Store {
    if requests == [] then Store([], firstToken)
    else
      var before := Reference(firstToken, requests[..|requests| - 1]);
      match requests[|requests| - 1]
      case InsertRequest(m, image, bytes) => InsertInto(before, m, image, bytes)
      case AliasRequest(source, m) => AliasInto(before, source, m)
  }

  /** Any run of inserts and aliases leaves exactly the reference list, within all three
      limits, and the tokens tell exactly which modules share an image. */
  method Serve(firstToken: nat, requests: seq<Request>) returns (order: seq<nat>, held: map<nat, Retained>)
    ensures (forall m :: m in order <==> m in held) && Distinct(order)
    ensures Shows(order, held, Reference(firstToken, requests).items) && Within(Reference(firstToken, requests).items)
    ensures forall m, n :: m in held && n in held ==> (held[m].token == held[n].token <==> held[m].image == held[n].image)
  {
    var store := new ExactImageStore(firstToken);
    for i := 0 to |requests|
      invariant fresh(store) && store.Valid() && store.Contents() == Reference(firstToken, requests[..i])
    {
      hide Counted, Queued, WithinLimits, InsertInto, AliasInto;
      assert requests[..i + 1][..i] == requests[..i];
      match requests[i]
      case InsertRequest(m, image, bytes) => store.Insert(m, image, bytes);
      case AliasRequest(source, m) => store.Alias(source, m);
    }
    assert requests[..|requests|] == requests;
    order, held := store.order, store.byModule;
    CountedIsBacked(order, held, store.refs, store.ownedBytes, 0, store.nextToken);
    InLimits(order, held, store.refs, store.ownedBytes, store.nextToken);
    FitsIsWithin(order, held, store.refs);
  }

  /** The queue and the modules show the items. */
  ghost predicate Shows(order: seq<nat>, held: map<nat, Retained>, items: seq<Item>) {
    |order| == |items| && forall i :: 0 <= i < |items| ==>
      && order[i] == items[i].m && items[i].m in held
      && held[items[i].m] == Retained(items[i].image, items[i].bytes, items[i].token)
  }
}
