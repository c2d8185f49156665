/** The cache of parsed ELF images that modules share, bounded by a count and by
    the bytes it owns; the least recently used images go first. */
module SharedImages {
  import opened Bits
  import opened ImageLimits

  datatype Image = Image(token: nat, ownedBytes: nat)

  datatype Entry = Entry(identity: nat, image: Image)

  function Bytes(entries: seq<Entry>): (n: nat) {
    if entries == [] then 0 else entries[0].image.ownedBytes + Bytes(entries[1..])
  }

  /** At most 256 images of 64 MiB together. */
  predicate Fits(entries: seq<Entry>) {
    |entries| <= 256 && Bytes(entries) <= 0x400_0000
  }

  function Remove(entries: seq<Entry>, identity: nat): (r: seq<Entry>) {
    if entries == [] then []
    else if entries[0].identity == identity then Remove(entries[1..], identity)
    else [entries[0]] + Remove(entries[1..], identity)
  }

  lemma {:induction false} BytesAppend(a: seq<Entry>, b: seq<Entry>)
    ensures Bytes(a + b) == Bytes(a) + Bytes(b)
  {
    if a == [] {
      assert a + b == b;
    } else {
      BytesAppend(a[1..], b);
      assert (a + b)[1..] == a[1..] + b;
    }
  }

  /** An image that is small enough on its own always survives its own insertion. */
  lemma {:induction false} NewestSurvives(entries: seq<Entry>, e: Entry)
    requires e.image.ownedBytes <= 0x400_0000
    ensures var t := Trim(entries + [e], Fits); t != [] && t[|t| - 1] == e
  {
    if entries == [] {
      assert entries + [e] == [e];
      assert Bytes([e]) == e.image.ownedBytes + Bytes([]);
    } else {
      NewestSurvives(entries[1..], e);
      assert (entries + [e])[1..] == entries[1..] + [e];
    }
  }

  /** Each identity occurs once. */
  predicate Unique(entries: seq<Entry>) {
    forall i, j :: 0 <= i < j < |entries| ==> entries[i].identity != entries[j].identity
  }

  lemma {:induction false} RemoveAbsent(entries: seq<Entry>, identity: nat)
    requires forall i :: 0 <= i < |entries| ==> entries[i].identity != identity
    ensures Remove(entries, identity) == entries
  {
    if entries != [] {
      RemoveAbsent(entries[1..], identity);
    }
  }

  lemma {:induction false} RemovePresent(entries: seq<Entry>, k: nat)
    requires Unique(entries) && k < |entries|
    ensures var r := Remove(entries, entries[k].identity);
      |r| == |entries| - 1 && Bytes(entries) == Bytes(r) + entries[k].image.ownedBytes
  {
    if k == 0 {
      RemoveAbsent(entries[1..], entries[0].identity);
    } else {
      RemovePresent(entries[1..], k - 1);
      assert entries[0].identity != entries[k].identity;
    }
  }

  /** The cached images from least to most recently used. */
  function Listing(order: seq<nat>, byImage: map<nat, Image>): (r: seq<Entry>)
    requires forall x :: x in order ==> x in byImage
    ensures |r| == |order| && forall i :: 0 <= i < |r| ==> r[i] == Entry(order[i], byImage[order[i]])
  {
    seq(|order|, i requires 0 <= i < |order| => Entry(order[i], byImage[order[i]]))
  }

  lemma ListingCons(order: seq<nat>, byImage: map<nat, Image>)
    requires order != [] && forall x :: x in order ==> x in byImage
    ensures Listing(order, byImage) == [Entry(order[0], byImage[order[0]])] + Listing(order[1..], byImage)
  {
  }

  lemma RemoveCons(e: Entry, rest: seq<Entry>, identity: nat)
    ensures Remove([e] + rest, identity) == (if e.identity == identity then [] else [e]) + Remove(rest, identity)
  {
    assert ([e] + rest)[1..] == rest;
    assert [] + Remove(rest, identity) == Remove(rest, identity);
  }

  lemma {:induction false} ListingWithout(order: seq<nat>, byImage: map<nat, Image>, identity: nat)
    requires forall x :: x in order ==> x in byImage
    ensures Listing(Without(order, identity), byImage) == Remove(Listing(order, byImage), identity)
  {
    if order != [] {
      var first, rest, left := order[0], order[1..], Without(order[1..], identity);
      ListingWithout(rest, byImage, identity);
      ListingCons(order, byImage);
      hide Listing, Remove;
      RemoveCons(Entry(first, byImage[first]), Listing(rest, byImage), identity);
      if first == identity {
        assert [] + Remove(Listing(rest, byImage), identity) == Remove(Listing(rest, byImage), identity);
      } else {
        assert Without(order, identity) == [first] + left && ([first] + left)[1..] == left;
        ListingCons([first] + left, byImage);
      }
    }
  }

  lemma ListingIgnores(order: seq<nat>, byImage: map<nat, Image>, identity: nat, image: Image)
    requires identity !in order && forall x :: x in order ==> x in byImage
    ensures Listing(order, byImage[identity := image]) == Listing(order, byImage)
    ensures Listing(order, byImage - {identity}) == Listing(order, byImage)
    ensures Listing(order + [identity], byImage[identity := image]) == Listing(order, byImage) + [Entry(identity, image)]
  {
  }

  /** The queue lists exactly the cached images, each once, and the byte total is theirs. */
  ghost predicate Consistent(order: seq<nat>, byImage: map<nat, Image>, retained: nat) {
    && Distinct(order)
    && (forall x :: x in order <==> x in byImage)
    && retained == Bytes(Listing(order, byImage))
  }

  lemma EvictFirst(order: seq<nat>, byImage: map<nat, Image>, retained: nat)
    requires Consistent(order, byImage, retained) && order != []
    ensures byImage[order[0]].ownedBytes <= retained
    ensures Consistent(order[1..], byImage - {order[0]}, retained - byImage[order[0]].ownedBytes)
    ensures Listing(order[1..], byImage - {order[0]}) == Listing(order, byImage)[1..]
  {
    assert order[0] !in order[1..];
    assert Listing(order[1..], byImage - {order[0]}) == Listing(order, byImage)[1..];
  }

  /** Taking an identity out of the listing takes its bytes out of the total. */
  lemma Debited(order: seq<nat>, byImage: map<nat, Image>, retained: nat, identity: nat)
    requires Consistent(order, byImage, retained)
    ensures identity in byImage ==> byImage[identity].ownedBytes <= retained
    ensures Bytes(Remove(Listing(order, byImage), identity))
         == if identity in byImage then retained - byImage[identity].ownedBytes else retained
  {
    var listing := Listing(order, byImage);
    if identity in byImage {
      var i :| 0 <= i < |order| && order[i] == identity;
      RemovePresent(listing, i);
    } else {
      RemoveAbsent(listing, identity);
    }
  }

  lemma MoveToBack(order: seq<nat>, byImage: map<nat, Image>, retained: nat, identity: nat, image: Image)
    requires Consistent(order, byImage, retained)
    ensures var later := Without(order, identity) + [identity];
      && (identity in byImage ==> byImage[identity].ownedBytes <= retained)
      && Consistent(later, byImage[identity := image],
                    (if identity in byImage then retained - byImage[identity].ownedBytes else retained) + image.ownedBytes)
      && Listing(later, byImage[identity := image]) == Remove(Listing(order, byImage), identity) + [Entry(identity, image)]
  {
    var rest := Without(order, identity);
    Debited(order, byImage, retained, identity);
    ListingWithout(order, byImage, identity);
    WithoutDistinct(order, identity);
    hide Listing, Remove, Without, Distinct, Bytes;
    AppendDistinct(rest, identity);
    ListingIgnores(rest, byImage, identity, image);
    OneEntry(Entry(identity, image));
    BytesAppend(Listing(rest, byImage), [Entry(identity, image)]);
  }

  lemma OneEntry(e: Entry)
    ensures Bytes([e]) == e.image.ownedBytes
  {
    assert Bytes([e]) == e.image.ownedBytes + Bytes([]);
  }

  lemma CacheSize(order: seq<nat>, byImage: map<nat, Image>, retained: nat)
    requires Consistent(order, byImage, retained)
    ensures |byImage| == |order|
  {
    DistinctSize(order);
    assert Elements(order) == byImage.Keys;
  }

  class ElfSectionCache {
    var byImage: map<nat, Image>
    var imageOrder: seq<nat>
    var retainedOwnedBytes: nat

    ghost predicate Valid()
      reads this
    {
      Consistent(imageOrder, byImage, retainedOwnedBytes) && Fits(Listing(imageOrder, byImage))
    }

    /** The cached images from least to most recently used. */
    ghost function Contents(): seq<Entry>
      requires Valid()
      reads this
    {
      Listing(imageOrder, byImage)
    }

    constructor ()
      ensures Valid() && Contents() == []
    {
      byImage, imageOrder, retainedOwnedBytes := map[], [], 0;
    }

    /** Insert as most recently used, then evict from the other end. An image
        over the byte bound is not cached at all. */
    method InsertSharedImage(identity: nat, image: Image)
      requires Valid()
      modifies this
      ensures Valid()
      ensures Contents() ==
        if image.ownedBytes > 0x400_0000 then old(Contents())
        else Trim(Remove(old(Contents()), identity) + [Entry(identity, image)], Fits)
    {
      if image.ownedBytes > MAX_SHARED_ELF_OWNED_BYTES {
        return;
      }
      MoveToBack(imageOrder, byImage, retainedOwnedBytes, identity, image);
      hide Remove, Bytes;
      if identity in byImage {
        retainedOwnedBytes := SatSub(retainedOwnedBytes, byImage[identity].ownedBytes);
      }
      imageOrder := Without(imageOrder, identity) + [identity];
      byImage := byImage[identity := image];
      retainedOwnedBytes := SatAdd(retainedOwnedBytes, image.ownedBytes);
      EvictExcess();
    }

    /** Evict the least recently used images while a bound is exceeded. */
    method EvictExcess()
      requires Consistent(imageOrder, byImage, retainedOwnedBytes)
      modifies this
      ensures Valid() && Contents() == Trim(old(Listing(imageOrder, byImage)), Fits)
    {
      CacheSize(imageOrder, byImage, retainedOwnedBytes);
      while |byImage| > MAX_SHARED_ELF_IMAGES || retainedOwnedBytes > MAX_SHARED_ELF_OWNED_BYTES
        invariant Consistent(imageOrder, byImage, retainedOwnedBytes) && |byImage| == |imageOrder|
        invariant Trim(Listing(imageOrder, byImage), Fits) == Trim(old(Listing(imageOrder, byImage)), Fits)
        decreases |imageOrder|
      {
        if imageOrder == [] {
          break;
        }
        EvictFirst(imageOrder, byImage, retainedOwnedBytes);
        var expired := imageOrder[0];
        imageOrder := imageOrder[1..];
        retainedOwnedBytes := SatSub(retainedOwnedBytes, byImage[expired].ownedBytes);
        byImage := byImage - {expired};
        CacheSize(imageOrder, byImage, retainedOwnedBytes);
      }
    }

    /** Mark a cached image as most recently used. */
    method TouchSharedImage(identity: nat)
      requires Valid() && identity in byImage
      modifies this
      ensures Valid() && byImage == old(byImage)
      ensures Contents() == Remove(old(Contents()), identity) + [Entry(identity, byImage[identity])]
    {
      MoveToBack(imageOrder, byImage, retainedOwnedBytes, identity, byImage[identity]);
      assert byImage[identity := byImage[identity]] == byImage;
      TouchedFits(imageOrder, byImage, identity);
      hide Remove, Bytes;
      imageOrder := Without(imageOrder, identity) + [identity];
    }
  }

  lemma TouchedFits(order: seq<nat>, byImage: map<nat, Image>, identity: nat)
    requires Distinct(order) && (forall x :: x in order <==> x in byImage) && identity in byImage
    requires Fits(Listing(order, byImage))
    ensures Fits(Remove(Listing(order, byImage), identity) + [Entry(identity, byImage[identity])])
  {
    var listing := Listing(order, byImage);
    var i :| 0 <= i < |order| && order[i] == identity;
    RemovePresent(listing, i);
    BytesAppend(Remove(listing, identity), [listing[i]]);
    OneEntry(listing[i]);
  }

  datatype Request = Insert(identity: nat, image: Image) | Touch(identity: nat)

  predicate Lists(entries: seq<Entry>, identity: nat) {
    exists e :: e in entries && e.identity == identity
  }

  ghost function Find(entries: seq<Entry>, identity: nat): Entry
    requires Lists(entries, identity)
  {
    var e :| e in entries && e.identity == identity;
    e
  }

  /** Reference: a list from least to most recently used, trimmed after every insertion. */
  ghost function Reference(requests: seq<Request>): seq<Entry> {
    if requests == [] then []
    else
      var before := Reference(requests[..|requests| - 1]);
      match requests[|requests| - 1]
      case Insert(identity, image) =>
        if image.ownedBytes > 0x400_0000 then before
        else Trim(Remove(before, identity) + [Entry(identity, image)], Fits)
      case Touch(identity) =>
        if Lists(before, identity) then Remove(before, identity) + [Find(before, identity)] else before
  }

  /** Any run of insertions and of touches of cached images leaves exactly the
      reference list, within both bounds. */
  method Serve(requests: seq<Request>) returns (listing: seq<Entry>)
    ensures listing == Reference(requests) && Fits(listing) && Unique(listing)
  {
    var cache := new ElfSectionCache();
    for i := 0 to |requests|
      invariant fresh(cache) && cache.Valid() && cache.Contents() == Reference(requests[..i])
    {
      assert requests[..i + 1][..i] == requests[..i];
      match requests[i]
      case Insert(identity, image) =>
        cache.InsertSharedImage(identity, image);
      case Touch(identity) =>
        ghost var before := cache.Contents();
        ListedIsCached(cache.imageOrder, cache.byImage, cache.retainedOwnedBytes, identity);
        if identity in cache.byImage {
          cache.TouchSharedImage(identity);
        }
    }
    assert requests[..|requests|] == requests;
    listing := Listing(cache.imageOrder, cache.byImage);
  }

  lemma ListedIsCached(order: seq<nat>, byImage: map<nat, Image>, retained: nat, identity: nat)
    requires Consistent(order, byImage, retained)
    ensures Lists(Listing(order, byImage), identity) <==> identity in byImage
    ensures identity in byImage ==> Find(Listing(order, byImage), identity) == Entry(identity, byImage[identity])
  {
    var listing := Listing(order, byImage);
    assert forall e :: e in listing ==> e.identity in order && e.image == byImage[e.identity];
    if identity in byImage {
      var i :| 0 <= i < |order| && order[i] == identity;
      assert listing[i] in listing;
    }
  }
}
