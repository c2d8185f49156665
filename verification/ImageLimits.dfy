/** Limits and list helpers shared by the two image stores. */
module ImageLimits {

  const MAX_SHARED_ELF_IMAGES: nat := 256
  const MAX_SHARED_ELF_OWNED_BYTES: nat := 64 * 1024 * 1024

  ghost function Elements(s: seq<nat>): (r: set<nat>)
    ensures forall x :: x in r <==> x in s
  {
    set x | x in s
  }

  predicate Distinct(s: seq<nat>) {
    forall i, j :: 0 <= i < j < |s| ==> s[i] != s[j]
  }

  lemma {:induction false} DistinctSize(s: seq<nat>)
    requires Distinct(s)
    ensures |Elements(s)| == |s|
  {
    if s != [] {
      DistinctSize(s[1..]);
      assert Elements(s) == {s[0]} + Elements(s[1..]);
      assert s[0] !in Elements(s[1..]);
    }
  }

  lemma AppendDistinct(s: seq<nat>, x: nat)
    requires Distinct(s) && x !in s
    ensures Distinct(s + [x])
  {
  }

  lemma SubsetSize(a: set<nat>, b: set<nat>)
    requires a <= b
    ensures |a| <= |b|
  {
    assert b == a + (b - a);
  }

  /** A queue without one of its members. */
  function Without(order: seq<nat>, x: nat): (r: seq<nat>)
    ensures forall y :: y in r <==> y in order && y != x
  {
    if order == [] then []
    else if order[0] == x then Without(order[1..], x)
    else [order[0]] + Without(order[1..], x)
  }

  lemma {:induction false} WithoutDistinct(order: seq<nat>, x: nat)
    requires Distinct(order)
    ensures Distinct(Without(order, x))
  {
    if order != [] {
      WithoutDistinct(order[1..], x);
      assert order[0] !in order[1..];
    }
  }

  /** Reference for eviction from the front: drop entries until the rest fits. */
  function Trim<T>(items: seq<T>, fits: seq<T> -> bool): (r: seq<T>) {
    if items == [] || fits(items) then items else Trim(items[1..], fits)
  }

  /** Trimming keeps the longest suffix that fits: it fits, and every longer suffix does not. */
  lemma {:induction false} TrimIsLongestFit<T>(items: seq<T>, fits: seq<T> -> bool)
    requires fits([])
    ensures var k := |items| - |Trim(items, fits)|;
      && 0 <= k <= |items| && Trim(items, fits) == items[k..] && fits(items[k..])
      && forall i :: 0 <= i < k ==> !fits(items[i..])
  {
    if items != [] && !fits(items) {
      TrimIsLongestFit(items[1..], fits);
      var k := |items| - |Trim(items, fits)|;
      forall i | 0 <= i < k
        ensures !fits(items[i..])
      {
        if i == 0 {
          assert items[0..] == items;
        } else {
          assert items[i..] == items[1..][i - 1..];
        }
      }
      assert items[k..] == items[1..][k - 1..];
    } else {
      assert items[0..] == items;
    }
  }

  /** Only one suffix is the longest that fits. */
  lemma {:induction false} LongestFitIsTrim<T>(items: seq<T>, fits: seq<T> -> bool, k: nat)
    requires k <= |items| && fits(items[k..]) && forall i :: 0 <= i < k ==> !fits(items[i..])
    ensures Trim(items, fits) == items[k..]
    decreases k
  {
    if k == 0 {
      assert items[0..] == items;
    } else {
      assert items[0..] == items && !fits(items[0..]);
      forall i | 0 <= i < k - 1
        ensures !fits(items[1..][i..])
      {
        assert items[1..][i..] == items[i + 1..];
      }
      assert items[1..][k - 1..] == items[k..];
      LongestFitIsTrim(items[1..], fits, k - 1);
    }
  }
}
