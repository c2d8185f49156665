/** Splitting a sampled call chain at its context markers. */
module CallChain {
  import opened Bits

  const PERF_CONTEXT_HV: nat := U64_LIMIT - 32
  const PERF_CONTEXT_KERNEL: nat := U64_LIMIT - 128
  const PERF_CONTEXT_USER: nat := U64_LIMIT - 512
  const PERF_CONTEXT_GUEST: nat := U64_LIMIT - 2048
  const PERF_CONTEXT_GUEST_KERNEL: nat := U64_LIMIT - 2176
  const PERF_CONTEXT_GUEST_USER: nat := U64_LIMIT - 2560

  datatype Context = User | Kernel | Hv | Guest | GuestUser | GuestKernel | Unknown

  datatype ChainEntry = ChainEntry(context: Context, addresses: seq<nat>)

  /** Wrapping addition, as on a 64-bit word. */
  predicate IsMarker(address: nat) {
    (address + 4095) % U64_LIMIT < 4095
  }

  /** Markers are the last 4095 words of the address space. */
  lemma MarkersAreHighWords(address: nat)
    requires address < U64_LIMIT
    ensures IsMarker(address) <==> U64_LIMIT - 4095 <= address
  {
  }

  function ContextOf(marker: nat): (c: Context) {
    if marker == PERF_CONTEXT_USER then User
    else if marker == PERF_CONTEXT_KERNEL then Kernel
    else if marker == PERF_CONTEXT_HV then Hv
    else if marker == PERF_CONTEXT_GUEST then Guest
    else if marker == PERF_CONTEXT_GUEST_USER then GuestUser
    else if marker == PERF_CONTEXT_GUEST_KERNEL then GuestKernel
    else Unknown
  }

  /** A cut of the list: every group is one leading word and then addresses only,
      and every group but the first leads with a marker. */
  ghost predicate CutAtMarkers(addresses: seq<nat>, groups: seq<seq<nat>>) {
    && Flatten(groups) == addresses
    && (forall g :: g in groups ==> g != [] && forall k :: 1 <= k < |g| ==> !IsMarker(g[k]))
    && (forall i :: 1 <= i < |groups| ==> groups[i] != [] && IsMarker(groups[i][0]))
  }

  ghost function Flatten(groups: seq<seq<nat>>): seq<nat> {
    if groups == [] then [] else groups[0] + Flatten(groups[1..])
  }

  lemma {:induction false} FlattenAppend(groups: seq<seq<nat>>, g: seq<nat>)
    ensures Flatten(groups + [g]) == Flatten(groups) + g
  {
    if groups == [] {
      assert Flatten([g]) == g + Flatten([]);
    } else {
      FlattenAppend(groups[1..], g);
      assert (groups + [g])[1..] == groups[1..] + [g];
      assert groups[0] + (Flatten(groups[1..]) + g) == groups[0] + Flatten(groups[1..]) + g;
    }
  }

  /** End of the group that starts the list: the next marker or the end. */
  function GroupEnd(addresses: seq<nat>, k: nat): (n: nat)
    requires k <= |addresses|
    ensures k <= n <= |addresses|
    decreases |addresses| - k
  {
    if k < |addresses| && !IsMarker(addresses[k]) then GroupEnd(addresses, k + 1) else k
  }

  lemma {:induction false} GroupEndIs(addresses: seq<nat>, k: nat, n: nat)
    requires k <= n <= |addresses|
    requires forall i :: k <= i < n ==> !IsMarker(addresses[i])
    requires n == |addresses| || IsMarker(addresses[n])
    ensures GroupEnd(addresses, k) == n
    decreases n - k
  {
    if k < n {
      GroupEndIs(addresses, k + 1, n);
    }
  }

  lemma FirstGroup(addresses: seq<nat>, groups: seq<seq<nat>>)
    requires CutAtMarkers(addresses, groups) && groups != []
    ensures addresses != [] && groups[0] == addresses[..GroupEnd(addresses, 1)]
    ensures CutAtMarkers(addresses[GroupEnd(addresses, 1)..], groups[1..])
  {
    var g, rest := groups[0], groups[1..];
    assert g in groups;
    assert addresses[..|g|] == g && addresses[|g|..] == Flatten(rest);
    if rest != [] {
      assert rest[0] == groups[1];
      assert addresses[|g|] == Flatten(rest)[0] == rest[0][0];
    }
    GroupEndIs(addresses, 1, |g|);
    forall i | 1 <= i < |rest|
      ensures rest[i] != [] && IsMarker(rest[i][0])
    {
      assert rest[i] == groups[i + 1];
    }
  }

  /** There is only one such cut. */
  lemma CutIsUnique(addresses: seq<nat>, a: seq<seq<nat>>, b: seq<seq<nat>>)
    requires CutAtMarkers(addresses, a) && CutAtMarkers(addresses, b)
    ensures a == b
  {
    CutIs(addresses, a);
    CutIs(addresses, b);
  }

  lemma CutExtend(addresses: seq<nat>, from: nat, upto: nat, groups: seq<seq<nat>>)
    requires from < upto <= |addresses| && CutAtMarkers(addresses[..from], groups)
    requires groups != [] ==> IsMarker(addresses[from])
    requires forall k :: from < k < upto ==> !IsMarker(addresses[k])
    ensures CutAtMarkers(addresses[..upto], groups + [addresses[from..upto]])
  {
    var g := addresses[from..upto];
    FlattenAppend(groups, g);
    assert addresses[..upto] == addresses[..from] + g;
    assert forall h :: h in groups + [g] <==> h in groups || h == g;
  }

  /** An entry is its group: the addresses after the leading word, under the context that
      word marks, by its value as a 64-bit word. */
  ghost predicate Entry(e: ChainEntry, group: seq<nat>)
    requires group != []
  {
    && e.addresses == group[1..]
    && (e.context == Hv <==> group[0] == 0xFFFF_FFFF_FFFF_FFE0)
    && (e.context == Kernel <==> group[0] == 0xFFFF_FFFF_FFFF_FF80)
    && (e.context == User <==> group[0] == 0xFFFF_FFFF_FFFF_FE00)
    && (e.context == Guest <==> group[0] == 0xFFFF_FFFF_FFFF_F800)
    && (e.context == GuestKernel <==> group[0] == 0xFFFF_FFFF_FFFF_F780)
    && (e.context == GuestUser <==> group[0] == 0xFFFF_FFFF_FFFF_F600)
  }

  class CallChainIter {
    const addresses: seq<nat>
    var cursor: nat

    constructor (addresses: seq<nat>)
      ensures this.addresses == addresses && cursor == 0
    {
      this.addresses := addresses;
      cursor := 0;
    }

    /** The next context and the addresses up to the following marker. */
    method Next() returns (entry: Option<ChainEntry>)
      requires cursor <= |addresses|
      modifies this
      ensures old(cursor) <= cursor <= |addresses|
      ensures entry == None <==> old(cursor) == |addresses|
      ensures entry.Some? ==> old(cursor) < cursor && Entry(entry.value, addresses[old(cursor)..cursor])
      ensures forall k :: old(cursor) < k < cursor ==> !IsMarker(addresses[k])
      ensures entry.Some? && cursor < |addresses| ==> IsMarker(addresses[cursor])
    {
      if cursor == |addresses| {
        return None;
      }
      var marker := addresses[cursor];
      cursor := cursor + 1;
      var start := cursor;
      while cursor < |addresses| && !IsMarker(addresses[cursor])
        invariant start <= cursor <= |addresses|
        invariant forall k :: start <= k < cursor ==> !IsMarker(addresses[k])
      {
        cursor := cursor + 1;
      }
      entry := Some(ChainEntry(ContextOf(marker), addresses[start..cursor]));
      assert addresses[old(cursor)..cursor][1..] == addresses[start..cursor];
    }
  }

  /** The groups of the list, each up to the next marker. */
  ghost function Cut(addresses: seq<nat>): (groups: seq<seq<nat>>)
    ensures forall i :: 0 <= i < |groups| ==> groups[i] != []
  {
    if addresses == [] then []
    else
      var n := GroupEnd(addresses, 1);
      [addresses[..n]] + Cut(addresses[n..])
  }

  /** A cut at the markers consists of exactly those groups. */
  lemma {:induction false} CutIs(addresses: seq<nat>, groups: seq<seq<nat>>)
    requires CutAtMarkers(addresses, groups)
    ensures groups == Cut(addresses)
    decreases |groups|
  {
    if groups == [] {
      assert addresses == [];
    } else {
      hide CutAtMarkers, GroupEnd, IsMarker;
      FirstGroup(addresses, groups);
      CutIs(addresses[GroupEnd(addresses, 1)..], groups[1..]);
      assert groups == [groups[0]] + groups[1..];
    }
  }

  /** Iterating ends, and yields one entry for each group of the cut at context markers. */
  method Collect(addresses: seq<nat>) returns (entries: seq<ChainEntry>)
    ensures CutAtMarkers(addresses, Cut(addresses))
    ensures |entries| == |Cut(addresses)|
    ensures forall i :: 0 <= i < |entries| ==> Entry(entries[i], Cut(addresses)[i])
  {
    var iter := new CallChainIter(addresses);
    entries := [];
    ghost var groups: seq<seq<nat>> := [];
    assert addresses[..0] == [];
    while true
      invariant fresh(iter) && iter.addresses == addresses && iter.cursor <= |addresses|
      invariant |entries| == |groups| && CutAtMarkers(addresses[..iter.cursor], groups)
      invariant forall i :: 0 <= i < |entries| ==> groups[i] != [] && Entry(entries[i], groups[i])
      invariant groups != [] && iter.cursor < |addresses| ==> IsMarker(addresses[iter.cursor])
      invariant groups == [] ==> iter.cursor == 0
      decreases |addresses| - iter.cursor
    {
      ghost var from := iter.cursor;
      var entry := iter.Next();
      match entry
      case None =>
        assert addresses[..from] == addresses;
        CutIs(addresses, groups);
        return;
      case Some(e) =>
        ghost var g := addresses[from..iter.cursor];
        CutExtend(addresses, from, iter.cursor, groups);
        entries := entries + [e];
        groups := groups + [g];
    }
  }
}
