/** Walking a process tree that may hold cycles and repeated roots. */
module Descendants {
  import opened Bits

  type Relation = map<int, seq<int>>

  datatype Edge = Edge(child: int, parent: int)

  function Kids(rel: Relation, pid: int): (r: seq<int>) {
    if pid in rel then rel[pid] else []
  }

  // ------------------------------------------------------------- the reference

  /** A chain of parent-to-child steps that starts at a root. */
  ghost predicate IsPath(rel: Relation, roots: seq<int>, path: seq<int>) {
    && path != [] && path[0] in roots
    && (forall i {:trigger path[i]} :: 0 < i < |path| ==> path[i] in Kids(rel, path[i - 1]))
  }

  ghost predicate Reachable(rel: Relation, roots: seq<int>, pid: int) {
    exists path :: IsPath(rel, roots, path) && path[|path| - 1] == pid
  }

  function Children(out: seq<Edge>): (r: set<int>) {
    set e | e in out :: e.child
  }

  function Elements(s: seq<int>): (r: set<int>) {
    set x | x in s
  }

  /** Each edge is real, new, and hangs off a root or an edge before it. */
  ghost predicate Growing(rel: Relation, roots: seq<int>, out: seq<Edge>) {
    forall i :: 0 <= i < |out| ==>
      && out[i].child in Kids(rel, out[i].parent)
      && out[i].child !in roots && out[i].child !in Children(out[..i])
      && (out[i].parent in roots || out[i].parent in Children(out[..i]))
  }

  /** The promise: every reachable process that is not a root, once, parents first. */
  ghost predicate Lists(rel: Relation, roots: seq<int>, out: seq<Edge>) {
    && Growing(rel, roots, out)
    && (forall pid :: pid in Children(out) <==> pid !in roots && Reachable(rel, roots, pid))
  }

  lemma {:induction false} ListedIsReachable(rel: Relation, roots: seq<int>, out: seq<Edge>, i: nat)
    requires Growing(rel, roots, out) && i < |out|
    ensures Reachable(rel, roots, out[i].child)
    decreases i
  {
    var e := out[i];
    var path := if e.parent in roots then [e.parent] else PathToListed(rel, roots, out, i, e.parent);
    assert IsPath(rel, roots, path + [e.child]);
    assert (path + [e.child])[|path|] == e.child;
  }

  ghost function PathToListed(rel: Relation, roots: seq<int>, out: seq<Edge>, n: nat, pid: int): (path: seq<int>)
    requires Growing(rel, roots, out) && n <= |out| && pid in Children(out[..n])
    ensures IsPath(rel, roots, path) && path[|path| - 1] == pid
    decreases n
  {
    var i :| 0 <= i < n && out[i].child == pid;
    var e := out[i];
    var above := if e.parent in roots then [e.parent] else PathToListed(rel, roots, out, i, e.parent);
    above + [pid]
  }

  /** A set that holds the roots and is closed under children holds everything reachable. */
  lemma {:induction false} ClosedHoldsPath(rel: Relation, roots: seq<int>, seen: set<int>, path: seq<int>, i: nat)
    requires IsPath(rel, roots, path) && i < |path| && Elements(roots) <= seen
    requires forall v :: v in seen ==> Closed(rel, seen, v)
    ensures path[i] in seen
    decreases i
  {
    if i > 0 {
      ClosedHoldsPath(rel, roots, seen, path, i - 1);
      var parent, child := path[i - 1], path[i];
      assert Closed(rel, seen, parent) && child in Kids(rel, parent);
    } else {
      assert path[0] in Elements(roots);
    }
  }

  ghost predicate Closed(rel: Relation, seen: set<int>, v: int) {
    forall k :: k in Kids(rel, v) ==> k in seen
  }

  lemma ClosedIsComplete(rel: Relation, roots: seq<int>, seen: set<int>, out: seq<Edge>)
    requires Growing(rel, roots, out) && seen == Elements(roots) + Children(out)
    requires forall v :: v in seen ==> Closed(rel, seen, v)
    ensures Lists(rel, roots, out)
    ensures forall pid :: Reachable(rel, roots, pid) ==> pid in seen
  {
    forall pid | Reachable(rel, roots, pid)
      ensures pid in seen
    {
      var path :| IsPath(rel, roots, path) && path[|path| - 1] == pid;
      ClosedHoldsPath(rel, roots, seen, path, |path| - 1);
    }
    forall pid | pid in Children(out)
      ensures pid !in roots && Reachable(rel, roots, pid)
    {
      var i :| 0 <= i < |out| && out[i].child == pid;
      ListedIsReachable(rel, roots, out, i);
    }
  }

  // --------------------------------------------------------------- the worklist

  ghost function Universe(rel: Relation, roots: seq<int>): set<int> {
    Elements(roots) + set p, k | p in rel && k in rel[p] :: k
  }

  /** What holds between two iterations. */
  ghost predicate Walk(rel: Relation, roots: seq<int>, seen: set<int>, stack: seq<int>, out: seq<Edge>) {
    && seen == Elements(roots) + Children(out) && seen <= Universe(rel, roots)
    && Growing(rel, roots, out)
    && Elements(stack) <= seen
  }

  /** Every process seen waits on the stack, is being expanded, or has all its children seen. */
  ghost predicate Settled(rel: Relation, seen: set<int>, stack: seq<int>, open: set<int>) {
    forall v :: v in seen ==> v in stack || v in open || Closed(rel, seen, v)
  }

  /** Add the children of one process that were not seen before. */
  method Expand(rel: Relation, ghost roots: seq<int>, parent: int, seen: set<int>, stack: seq<int>, out: seq<Edge>)
      returns (seen': set<int>, stack': seq<int>, out': seq<Edge>)
    requires Walk(rel, roots, seen, stack, out) && parent in seen && Settled(rel, seen, stack, {parent})
    ensures Walk(rel, roots, seen', stack', out') && Settled(rel, seen', stack', {})
    ensures seen <= seen' && stack <= stack' && (seen' == seen ==> stack' == stack)
    ensures forall v :: v in seen' ==> v in seen || v in stack'
  {
    hide Walk, Settled, Children, Universe;
    seen', stack', out' := seen, stack, out;
    var kids := Kids(rel, parent);
    for i := 0 to |kids|
      invariant Walk(rel, roots, seen', stack', out') && parent in seen'
      invariant Settled(rel, seen', stack', {parent})
      invariant seen <= seen' && stack <= stack' && (seen' == seen ==> stack' == stack)
      invariant forall v :: v in seen' ==> v in seen || v in stack'
      invariant forall j :: 0 <= j < i ==> kids[j] in seen'
    {
      var child := kids[i];
      if child !in seen' {
        NewChild(rel, roots, parent, child, seen', stack', out');
        seen', stack', out' := seen' + {child}, stack' + [child], out' + [Edge(child, parent)];
      }
    }
    assert Closed(rel, seen', parent);
    ExpandedSettles(rel, seen', stack', parent);
  }

  lemma ExpandedSettles(rel: Relation, seen: set<int>, stack: seq<int>, parent: int)
    requires Settled(rel, seen, stack, {parent}) && Closed(rel, seen, parent)
    ensures Settled(rel, seen, stack, {})
  {
  }

  lemma NewChild(rel: Relation, roots: seq<int>, parent: int, child: int, seen: set<int>, stack: seq<int>, out: seq<Edge>)
    requires Walk(rel, roots, seen, stack, out) && parent in seen && Settled(rel, seen, stack, {parent})
    requires child in Kids(rel, parent) && child !in seen
    ensures Walk(rel, roots, seen + {child}, stack + [child], out + [Edge(child, parent)])
    ensures Settled(rel, seen + {child}, stack + [child], {parent})
  {
    var more := out + [Edge(child, parent)];
    assert Children(more) == Children(out) + {child} by {
      assert more[|out|] == Edge(child, parent);
      assert forall e :: e in out ==> e in more;
    }
    GrowingStep(rel, roots, out, Edge(child, parent));
    assert Elements(stack + [child]) == Elements(stack) + {child};
    assert child in Universe(rel, roots);
    forall v | v in seen + {child}
      ensures v in stack + [child] || v == parent || Closed(rel, seen + {child}, v)
    {
      assert v == child ==> (stack + [child])[|stack|] == v;
      assert v in stack ==> v in stack + [child];
    }
  }

  lemma GrowingStep(rel: Relation, roots: seq<int>, out: seq<Edge>, e: Edge)
    requires Growing(rel, roots, out)
    requires e.child in Kids(rel, e.parent) && e.child !in roots && e.child !in Children(out)
    requires e.parent in roots || e.parent in Children(out)
    ensures Growing(rel, roots, out + [e])
  {
    var more := out + [e];
    forall i | 0 <= i < |more|
      ensures more[i].child in Kids(rel, more[i].parent)
      ensures more[i].child !in roots && more[i].child !in Children(more[..i])
      ensures more[i].parent in roots || more[i].parent in Children(more[..i])
    {
      assert more[..i] == out[..i];
      assert out[..|out|] == out;
    }
  }

  lemma WalkStarts(rel: Relation, roots: seq<int>)
    ensures Walk(rel, roots, Elements(roots), roots, [])
    ensures Settled(rel, Elements(roots), roots, {})
  {
  }

  /** Taking the last entry off the stack leaves only that process to expand. */
  lemma Popped(rel: Relation, roots: seq<int>, seen: set<int>, stack: seq<int>, out: seq<Edge>)
    requires stack != [] && Walk(rel, roots, seen, stack, out) && Settled(rel, seen, stack, {})
    ensures var last := |stack| - 1;
      && stack[last] in seen && Walk(rel, roots, seen, stack[..last], out)
      && Settled(rel, seen, stack[..last], {stack[last]})
  {
    var last := |stack| - 1;
    assert stack == stack[..last] + [stack[last]];
    assert stack[last] in Elements(stack);
    assert Elements(stack[..last]) <= Elements(stack);
  }

  lemma Finished(rel: Relation, roots: seq<int>, seen: set<int>, out: seq<Edge>)
    requires Walk(rel, roots, seen, [], out) && Settled(rel, seen, [], {})
    ensures Lists(rel, roots, out)
    ensures forall pid :: Reachable(rel, roots, pid) ==> pid in seen
  {
    ClosedIsComplete(rel, roots, seen, out);
  }

  lemma SeenIsReachable(rel: Relation, roots: seq<int>, seen: set<int>, stack: seq<int>, out: seq<Edge>, pid: int)
    requires Walk(rel, roots, seen, stack, out) && pid in seen
    ensures Reachable(rel, roots, pid)
  {
    if pid in roots {
      assert IsPath(rel, roots, [pid]) && [pid][|[pid]| - 1] == pid;
    } else {
      var i :| 0 <= i < |out| && out[i].child == pid;
      ListedIsReachable(rel, roots, out, i);
    }
  }

  lemma Smaller(all: set<int>, seen: set<int>, seen': set<int>)
    requires seen <= seen' <= all
    ensures |all - seen'| <= |all - seen| && (seen != seen' ==> |all - seen'| < |all - seen|)
    decreases |all|
  {
    var rest, rest' := all - seen, all - seen';
    assert rest == rest' + (rest - rest');
    assert |rest| == |rest'| + |rest - rest'|;
    assert rest - rest' == seen' - seen;
    if |seen' - seen| == 0 {
      assert seen == seen + (seen' - seen) == seen';
    }
  }

  /** Walk through the children lists; gives up when a process has none to read. */
  method EdgesViaProcChildren(rel: Relation, roots: seq<int>) returns (r: Option<seq<Edge>>)
    ensures r.Some? ==> Lists(rel, roots, r.value)
    ensures r == None <==> exists pid :: Reachable(rel, roots, pid) && pid !in rel
  {
    hide Walk, Settled, Lists, Reachable;
    var seen, stack, out := Elements(roots), roots, [];
    WalkStarts(rel, roots);
    ghost var all := Universe(rel, roots);
    while stack != []
      invariant Walk(rel, roots, seen, stack, out) && Settled(rel, seen, stack, {})
      invariant forall v :: v in seen ==> v in stack || v in rel
      decreases |all - seen|, |stack|
    {
      var last := |stack| - 1;
      var parent := stack[last];
      Popped(rel, roots, seen, stack, out);
      if parent !in rel {
        SeenIsReachable(rel, roots, seen, stack[..last], out, parent);
        return None;
      }
      assert forall v :: v in stack ==> v in stack[..last] || v == parent;
      ghost var before := seen;
      seen, stack, out := Expand(rel, roots, parent, seen, stack[..last], out);
      WithinUniverse(rel, roots, seen, stack, out);
      Smaller(all, before, seen);
    }
    Finished(rel, roots, seen, out);
    return Some(out);
  }

  lemma WithinUniverse(rel: Relation, roots: seq<int>, seen: set<int>, stack: seq<int>, out: seq<Edge>)
    requires Walk(rel, roots, seen, stack, out)
    ensures seen <= Universe(rel, roots)
  {
  }

  /** Walk through a table of children; processes without an entry have none. */
  method EdgesViaTable(rel: Relation, roots: seq<int>) returns (out: seq<Edge>)
    ensures Lists(rel, roots, out)
  {
    hide Walk, Settled, Lists, Reachable;
    var seen, stack := Elements(roots), roots;
    out := [];
    WalkStarts(rel, roots);
    ghost var all := Universe(rel, roots);
    while stack != []
      invariant Walk(rel, roots, seen, stack, out) && Settled(rel, seen, stack, {})
      decreases |all - seen|, |stack|
    {
      var last := |stack| - 1;
      var pid := stack[last];
      Popped(rel, roots, seen, stack, out);
      ghost var before := seen;
      seen, stack, out := Expand(rel, roots, pid, seen, stack[..last], out);
      WithinUniverse(rel, roots, seen, stack, out);
      Smaller(all, before, seen);
    }
    Finished(rel, roots, seen, out);
  }

  // ----------------------------------------------------------- the stat fallback

  /** One readable directory entry: a process and, if its stat line parses, its parent. */
  datatype Entry = Entry(pid: int, parent: Option<int>)

  /** The relation a directory listing describes. */
  ghost predicate Describes(entries: seq<Entry>, rel: Relation) {
    forall p, k :: k in Kids(rel, p) <==> Entry(k, Some(p)) in entries
  }

  /** Group processes by parent. */
  method ChildrenOf(entries: seq<Entry>) returns (rel: Relation)
    ensures Describes(entries, rel)
  {
    rel := map[];
    for i := 0 to |entries|
      invariant forall p, k :: k in Kids(rel, p) <==> Entry(k, Some(p)) in entries[..i]
    {
      assert entries[..i + 1] == entries[..i] + [entries[i]];
      if entries[i].parent.Some? {
        var p := entries[i].parent.value;
        rel := rel[p := Kids(rel, p) + [entries[i].pid]];
      }
    }
    assert entries[..|entries|] == entries;
  }

  /** What is listed depends only on who is whose child. */
  lemma SameChildren(a: Relation, b: Relation, roots: seq<int>, out: seq<Edge>)
    requires forall p, k :: k in Kids(a, p) <==> k in Kids(b, p)
    requires Lists(a, roots, out)
    ensures Lists(b, roots, out)
  {
    hide Kids, Children;
    forall pid
      ensures Reachable(a, roots, pid) <==> Reachable(b, roots, pid)
    {
      SamePaths(a, b, roots, pid);
      SamePaths(b, a, roots, pid);
    }
    assert Growing(b, roots, out);
  }

  lemma SamePaths(a: Relation, b: Relation, roots: seq<int>, pid: int)
    requires forall p, k :: k in Kids(a, p) <==> k in Kids(b, p)
    ensures Reachable(a, roots, pid) ==> Reachable(b, roots, pid)
  {
    hide Kids;
    if Reachable(a, roots, pid) {
      var path :| IsPath(a, roots, path) && path[|path| - 1] == pid;
      forall i | 0 < i < |path|
        ensures path[i] in Kids(b, path[i - 1])
      {
        var p, k := path[i - 1], path[i];
        assert k in Kids(a, p);
      }
      assert IsPath(b, roots, path);
    }
  }

  ghost predicate AllReadable(lists: Relation, roots: seq<int>) {
    forall pid :: Reachable(lists, roots, pid) ==> pid in lists
  }

  /** The whole scan: the children lists if all that are needed are readable, else the
      stat lines, else nothing. */
  method DescendantEdges(lists: Relation, entries: Option<seq<Entry>>, roots: seq<int>) returns (out: seq<Edge>)
    ensures AllReadable(lists, roots) ==> Lists(lists, roots, out)
    ensures !AllReadable(lists, roots) && entries.Some? ==>
      forall rel :: Describes(entries.value, rel) ==> Lists(rel, roots, out)
    ensures !AllReadable(lists, roots) && entries == None ==> out == []
  {
    hide Lists, Reachable, Describes;
    var fast := EdgesViaProcChildren(lists, roots);
    if fast.Some? {
      return fast.value;
    }
    if entries == None {
      return [];
    }
    var table := ChildrenOf(entries.value);
    out := EdgesViaTable(table, roots);
    forall rel | Describes(entries.value, rel)
      ensures Lists(rel, roots, out)
    {
      SameDescription(entries.value, table, rel);
      SameChildren(table, rel, roots, out);
    }
  }

  lemma SameDescription(entries: seq<Entry>, a: Relation, b: Relation)
    requires Describes(entries, a) && Describes(entries, b)
    ensures forall p, k :: k in Kids(a, p) <==> k in Kids(b, p)
  {
    hide Kids;
  }
}
