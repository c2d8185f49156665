/** Choosing ring sizes: powers of two pages, a byte budget, and a fallback search. */
module RingPlan {
  import opened Bits

  const DEFAULT_RING_BUFFER_STACKS: nat := 32
  const RING_WAKEUP_FRACTION: nat := 8
  const MAX_RING_BUFFER_BYTES: nat := 256 * 1024 * 1024
  const MAX_PERF_RECORD_BYTES: nat := U16_LIMIT - 1

  // ------------------------------------------------------------- powers of two

  /** Exponent of the first power of two that is at least `n`. */
  function CeilLog2(n: nat): (k: nat) {
    if n <= 1 then 0 else 1 + CeilLog2((n + 1) / 2)
  }

  lemma {:induction false} CeilLog2IsLeast(n: nat)
    ensures n <= Pow2(CeilLog2(n))
    ensures CeilLog2(n) > 0 ==> Pow2(CeilLog2(n) - 1) < n
  {
    if n > 1 {
      CeilLog2IsLeast((n + 1) / 2);
      if n == 2 {
        assert CeilLog2(1) == 0;
      }
    }
  }

  /** Exponent of the last power of two that is at most `n`. */
  function FloorLog2(n: nat): (k: nat) {
    if n <= 1 then 0 else 1 + FloorLog2(n / 2)
  }

  lemma {:induction false} FloorLog2IsGreatest(n: nat)
    requires n > 0
    ensures Pow2(FloorLog2(n)) <= n < Pow2(FloorLog2(n) + 1)
  {
    if n > 1 {
      FloorLog2IsGreatest(n / 2);
    }
  }

  lemma {:induction false} PowersGrow(j: nat, k: nat)
    requires j <= k
    ensures Pow2(j) <= Pow2(k)
    ensures j < k ==> 2 * Pow2(j) <= Pow2(k)
    decreases k
  {
    if j < k {
      PowersGrow(j, k - 1);
    }
  }

  lemma MulMonotone(n: nat, a: nat, b: nat)
    requires a <= b
    ensures n * a <= n * b
  {
  }

  lemma SixtyFour()
    ensures Pow2(64) == U64_LIMIT
  {
    assert Pow2(4) == 16;
    hide Pow2;
    PowersAdd(4, 4);
    PowersAdd(8, 8);
    PowersAdd(16, 16);
    PowersAdd(32, 32);
  }

  lemma {:induction false} PowersAdd(j: nat, k: nat)
    ensures Pow2(j + k) == Pow2(j) * Pow2(k)
    decreases k
  {
    if k > 0 {
      PowersAdd(j, k - 1);
      assert Pow2(j + k) == 2 * Pow2(j + (k - 1)) && Pow2(k) == 2 * Pow2(k - 1);
      hide Pow2;
      MulDouble(Pow2(j), Pow2(k - 1));
    }
  }

  lemma MulDouble(a: nat, b: nat)
    ensures a * (2 * b) == 2 * (a * b)
  {
  }

  /** Bytes of a ring of two to the `k` pages. */
  function RingBytes(page: nat, k: nat): (n: nat) {
    page * Pow2(k)
  }

  lemma RingsGrow(page: nat, j: nat, k: nat)
    requires j <= k
    ensures RingBytes(page, j) <= RingBytes(page, k)
  {
    PowersGrow(j, k);
    MulMonotone(page, Pow2(j), Pow2(k));
  }

  // -------------------------------------------------------------------- sizing

  datatype Result<T> = Ok(value: T) | Err

  function NormalizedRingStacks(stacks: nat): (n: nat)
    ensures n > 0
  {
    if stacks == 0 then DEFAULT_RING_BUFFER_STACKS else stacks
  }

  function PageExp(stackSize: nat, stacks: nat, page: nat): (r: Result<nat>) {
    if page == 0 then Err else
    var slots := Max(stackSize, page) * NormalizedRingStacks(stacks);
    if slots >= U64_LIMIT then Err else
    var required := Max(slots, MAX_PERF_RECORD_BYTES);
    var exp := CeilLog2((required + page - 1) / page);
    if Pow2(exp) >= U64_LIMIT then Err else
    if page * Pow2(exp) >= U64_LIMIT then Err else
    if page * Pow2(exp) > MAX_RING_BUFFER_BYTES then Err else
    Ok(exp)
  }

  /** What a ring must hold: the stacks asked for, 32 if none are, each in a page at least,
      and any record a 16-bit size can have. */
  ghost function Request(stackSize: nat, stacks: nat, page: nat): (n: nat) {
    Max(Max(stackSize, page) * (if stacks == 0 then 32 else stacks), 0xFFFF)
  }

  ghost predicate IsSmallest(request: nat, page: nat, k: nat) {
    request <= RingBytes(page, k) && forall j: nat :: j < k ==> RingBytes(page, j) < request
  }

  lemma Quotient(page: nat, request: nat, n: nat)
    requires page > 0
    ensures request <= page * n <==> (request + page - 1) / page <= n
  {
    var q, m := (request + page - 1) / page, (request + page - 1) % page;
    assert request + page - 1 == page * q + m;
    if n < q {
      MulGap(page, n, q);
    } else {
      MulMonotone(page, q, n);
    }
  }

  lemma SmallestExponent(request: nat, page: nat)
    requires page > 0
    ensures IsSmallest(request, page, CeilLog2((request + page - 1) / page))
  {
    var pages := (request + page - 1) / page;
    var k := CeilLog2(pages);
    CeilLog2IsLeast(pages);
    Quotient(page, request, Pow2(k));
    forall j: nat | j < k
      ensures RingBytes(page, j) < request
    {
      PowersGrow(j, k - 1);
      Quotient(page, request, Pow2(j));
    }
  }

  lemma SmallestIsUnique(request: nat, page: nat, j: nat, k: nat)
    requires IsSmallest(request, page, j) && IsSmallest(request, page, k)
    ensures j == k
  {
  }

  /** The exponent is accepted exactly if it is the least that covers the request
      and stays within 256 MiB: no overflow check refuses a size that would fit. */
  lemma PageExpIsSmallest(stackSize: nat, stacks: nat, page: nat, k: nat)
    ensures PageExp(stackSize, stacks, page) == Ok(k) <==>
      && page > 0 && IsSmallest(Request(stackSize, stacks, page), page, k)
      && RingBytes(page, k) <= 0x1000_0000
  {
    hide Pow2, CeilLog2, IsSmallest;
    if page > 0 {
      var request := Request(stackSize, stacks, page);
      var exp := CeilLog2((request + page - 1) / page);
      SmallestExponent(request, page);
      SmallestCovers(request, page, exp);
      PageAtLeastOne(page, Pow2(exp));
      if IsSmallest(request, page, k) {
        SmallestIsUnique(request, page, exp, k);
      }
    }
  }

  lemma SmallestCovers(request: nat, page: nat, k: nat)
    requires IsSmallest(request, page, k)
    ensures request <= page * Pow2(k)
  {
  }

  lemma PageAtLeastOne(page: nat, n: nat)
    requires page > 0
    ensures n <= page * n
  {
    MulMonotone(n, 1, page);
  }

  /** A larger request never gets a smaller ring. */
  lemma SmallerRequestFits(a: nat, b: nat, page: nat, j: nat, k: nat)
    requires a <= b && IsSmallest(a, page, j) && IsSmallest(b, page, k)
    ensures j <= k
  {
  }

  // ----------------------------------------------------------- wake-up watermark

  function WakeupBytes(page: nat, exp: nat): (r: Result<nat>) {
    if exp >= 64 then Err else
    var capacity := page * Pow2(exp) % U64_LIMIT;
    var mark := Max(capacity / RING_WAKEUP_FRACTION, 1);
    if mark < U32_LIMIT then Ok(mark) else Err
  }

  /** A watermark of one eighth of the ring, rounded down, but at least one byte. */
  predicate IsWatermark(r: Result<nat>, bytes: nat) {
    && r.Ok? && 0 < r.value <= bytes
    && (8 <= bytes ==> 8 * r.value <= bytes < 8 * r.value + 8)
  }

  /** For every ring size within the limit the watermark exists: neither the shift
      nor the narrowing loses a bit. */
  lemma WakeupWithinRing(page: nat, exp: nat)
    requires 0 < page && RingBytes(page, exp) <= 0x1000_0000
    ensures IsWatermark(WakeupBytes(page, exp), RingBytes(page, exp))
  {
    if exp >= 64 {
      SixtyFour();
      RingsGrow(page, 64, exp);
      PageAtLeastOne(page, Pow2(64));
    }
    RingsGrow(page, 0, exp);
  }

  // ---------------------------------------------------------------- the budget

  function BudgetExp(maximum: nat, page: nat): (r: Result<nat>)
    requires page > 0
  {
    if maximum / page == 0 then Err else Ok(FloorLog2(maximum / page))
  }

  lemma DividedBudget(maximum: nat, page: nat, n: nat)
    requires page > 0
    ensures page * n <= maximum <==> n <= maximum / page
  {
    var q, m := maximum / page, maximum % page;
    assert maximum == page * q + m;
    if q < n {
      MulGap(page, q, n);
    } else {
      MulMonotone(page, n, q);
    }
  }

  /** The budget exponent is the largest whose ring fits the budget, if any fits. */
  lemma BudgetIsLargest(maximum: nat, page: nat, k: nat)
    requires page > 0
    ensures RingBytes(page, k) <= maximum <==> BudgetExp(maximum, page).Ok? && k <= BudgetExp(maximum, page).value
  {
    hide FloorLog2, Pow2;
    var pages := maximum / page;
    DividedBudget(maximum, page, Pow2(k));
    if pages > 0 {
      FloorLog2IsGreatest(pages);
      if k <= FloorLog2(pages) {
        PowersGrow(k, FloorLog2(pages));
      } else {
        PowersGrow(FloorLog2(pages) + 1, k);
      }
    }
  }

  // ------------------------------------------------------------------ the plan

  datatype Plan = Plan(requested: nat, fallback: nat)

  function MakePlan(stackSize: nat, stacks: nat, maximum: nat, page: nat): (r: Result<Plan>)
    requires page > 0
  {
    var requested := PageExp(stackSize, stacks, page);
    var budget := BudgetExp(maximum, page);
    var minimum := PageExp(stackSize, 1, page);
    if requested.Err? || budget.Err? || minimum.Err? then Err
    else if budget.value < minimum.value then Err
    else Ok(Plan(Min(requested.value, budget.value), minimum.value))
  }

  /** Sizing one stack succeeds whenever sizing many does, with no larger a ring. */
  lemma OneStackIsLeast(stackSize: nat, stacks: nat, page: nat)
    requires PageExp(stackSize, stacks, page).Ok?
    ensures PageExp(stackSize, 1, page).Ok?
    ensures PageExp(stackSize, 1, page).value <= PageExp(stackSize, stacks, page).value
  {
    hide PageExp, IsSmallest, RingBytes;
    var k := PageExp(stackSize, stacks, page).value;
    PageExpIsSmallest(stackSize, stacks, page, k);
    var one, many := Request(stackSize, 1, page), Request(stackSize, stacks, page);
    MulMonotone(Max(stackSize, page), 1, NormalizedRingStacks(stacks));
    var j := CeilLog2((one + page - 1) / page);
    SmallestExponent(one, page);
    SmallerRequestFits(one, many, page, j, k);
    RingsGrow(page, j, k);
    PageExpIsSmallest(stackSize, 1, page, j);
  }

  predicate FitsBudget(exp: Result<nat>, maximum: nat, page: nat) {
    exp.Ok? && RingBytes(page, exp.value) <= maximum
  }

  /** A plan exists exactly if the request is sizeable and one complete sample fits the budget. */
  lemma PlanExists(stackSize: nat, stacks: nat, maximum: nat, page: nat)
    requires page > 0
    ensures MakePlan(stackSize, stacks, maximum, page).Ok? <==>
      PageExp(stackSize, stacks, page).Ok? && FitsBudget(PageExp(stackSize, 1, page), maximum, page)
  {
    hide PageExp, RingBytes, BudgetExp;
    if PageExp(stackSize, stacks, page).Ok? {
      OneStackIsLeast(stackSize, stacks, page);
      BudgetIsLargest(maximum, page, PageExp(stackSize, 1, page).value);
    }
  }

  /** The sizes of a plan lie in order, hold a sample and fit both limits, and the
      first one tried is the largest that neither the request nor the budget exceeds. */
  ghost predicate InOrder(p: Plan, wanted: nat, stackSize: nat, maximum: nat, page: nat) {
    && p.fallback <= p.requested <= wanted
    && stackSize <= RingBytes(page, p.fallback) && 0xFFFF <= RingBytes(page, p.fallback)
    && RingBytes(page, p.requested) <= maximum && RingBytes(page, p.requested) <= 0x1000_0000
    && (forall k: nat :: p.requested < k <= wanted ==> maximum < RingBytes(page, k))
  }

  lemma PlanInOrder(stackSize: nat, stacks: nat, maximum: nat, page: nat, p: Plan)
    requires page > 0 && MakePlan(stackSize, stacks, maximum, page) == Ok(p)
    ensures InOrder(p, PageExp(stackSize, stacks, page).value, stackSize, maximum, page)
  {
    hide PageExp, RingBytes, BudgetExp, Pow2;
    var wanted := PageExp(stackSize, stacks, page).value;
    OneStackIsLeast(stackSize, stacks, page);
    PageExpIsSmallest(stackSize, stacks, page, wanted);
    PageExpIsSmallest(stackSize, 1, page, p.fallback);
    RingsGrow(page, p.requested, wanted);
    BudgetIsLargest(maximum, page, p.requested);
    forall k: nat | p.requested < k <= wanted
      ensures maximum < RingBytes(page, k)
    {
      BudgetIsLargest(maximum, page, k);
    }
  }

  /** Every size the fallback search may try has a usable watermark. */
  lemma WakeupInPlan(stackSize: nat, stacks: nat, maximum: nat, page: nat, exp: nat)
    requires 0 < page && MakePlan(stackSize, stacks, maximum, page).Ok?
    requires exp <= MakePlan(stackSize, stacks, maximum, page).value.requested
    ensures IsWatermark(WakeupBytes(page, exp), RingBytes(page, exp))
  {
    hide MakePlan, RingBytes, WakeupBytes, IsWatermark;
    var p := MakePlan(stackSize, stacks, maximum, page).value;
    PlanInOrder(stackSize, stacks, maximum, page, p);
    RingsGrow(page, exp, p.requested);
    WakeupWithinRing(page, exp);
  }

  // ------------------------------------------------------------------ fallback

  /** What opening a counter and mapping its ring at some size comes to. */
  datatype Attempt = NoCounter | Mapped | OutOfBudget | Failed

  datatype Opened = Opened(exp: nat) | Refused(exp: nat, error: Attempt)

  /** The largest size from `low` up that maps, provided nothing above it failed for
      another reason than the budget. */
  ghost predicate IsLargestMapped(attempts: seq<Attempt>, low: nat, high: nat, e: nat) {
    && low <= e <= high < |attempts| && attempts[e] == Mapped
    && forall k :: e < k <= high ==> attempts[k] == OutOfBudget
  }

  /** Try sizes from the largest down until one maps or a failure is final. */
  method OpenRingWithFallback(requested: nat, fallback: nat, attempts: seq<Attempt>)
      returns (r: Opened, tried: seq<nat>)
    requires requested < |attempts|
    ensures Min(fallback, requested) <= r.exp <= requested
    ensures |tried| == requested - r.exp + 1 && forall i :: 0 <= i < |tried| ==> tried[i] == requested - i
    ensures forall e :: r == Opened(e) <==> IsLargestMapped(attempts, Min(fallback, requested), requested, e)
    ensures r.Refused? ==> r.error == attempts[r.exp] && (r.error == OutOfBudget ==> r.exp == Min(fallback, requested))
  {
    var exp: nat := requested;
    tried := [];
    while true
      invariant Min(fallback, requested) <= exp <= requested
      invariant |tried| == requested - exp && forall i :: 0 <= i < |tried| ==> tried[i] == requested - i
      invariant forall k :: exp < k <= requested ==> attempts[k] == OutOfBudget
      decreases exp
    {
      tried := tried + [exp];
      match attempts[exp]
      case Mapped =>
        return Opened(exp), tried;
      case OutOfBudget =>
        if exp <= fallback {
          return Refused(exp, OutOfBudget), tried;
        }
        exp := exp - 1;
      case error =>
        return Refused(exp, error), tried;
    }
  }
}
