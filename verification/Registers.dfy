/** Reading packed register values by counting the mask bits below a register. */
module Registers {
  import opened Bits

  // ------------------------------------------------------------------ mask bits

  function CountOnes(x: nat): (n: nat) {
    if x == 0 then 0 else x % 2 + CountOnes(x / 2)
  }

  function BitOr(x: nat, y: nat): (r: nat)
    decreases x + y
  {
    if x == 0 && y == 0 then 0
    else 2 * BitOr(x / 2, y / 2) + (if x % 2 == 1 || y % 2 == 1 then 1 else 0)
  }

  lemma HalfDivision(x: nat, half: nat)
    requires half > 0
    ensures x / (2 * half) == x / 2 / half
  {
    var q, r := x / 2 / half, x / 2 % half;
    assert x == (2 * half) * q + (2 * r + x % 2) by { assert 2 * (q * half) == (2 * half) * q; }
    ModuloUnique(x, 2 * half, q, 2 * r + x % 2);
  }

  lemma HalfBit(x: nat, k: nat)
    requires k > 0
    ensures Bit(x, k) == Bit(x / 2, k - 1)
  {
    HalfDivision(x, Pow2(k - 1));
  }

  lemma {:induction false} TestBit(x: nat, k: nat)
    ensures BitAnd(x, Pow2(k)) != 0 <==> Bit(x, k)
    decreases k
  {
    if k > 0 {
      HalfBit(x, k);
      TestBit(x / 2, k - 1);
      assert Pow2(k) / 2 == Pow2(k - 1) && Pow2(k) % 2 == 0;
    } else {
      assert BitAnd(x, 1) == x % 2;
    }
  }

  lemma {:induction false} OrBits(x: nat, y: nat, k: nat)
    ensures Bit(BitOr(x, y), k) <==> Bit(x, k) || Bit(y, k)
    decreases k
  {
    if k > 0 {
      HalfBit(x, k);
      HalfBit(y, k);
      HalfBit(BitOr(x, y), k);
      OrBits(x / 2, y / 2, k - 1);
      assert BitOr(x, y) / 2 == BitOr(x / 2, y / 2);
    }
  }

  lemma {:induction false} PowerBit(j: nat, k: nat)
    ensures Bit(Pow2(j), k) <==> j == k
    decreases k
  {
    if k > 0 {
      HalfBit(Pow2(j), k);
      if j > 0 {
        PowerBit(j - 1, k - 1);
      } else {
        NoBits(k - 1);
      }
    } else if j > 0 {
      assert Pow2(j) % 2 == 0;
    }
  }

  lemma NoBits(k: nat)
    ensures !Bit(0, k)
  {
  }

  /** The numbers of the set bits below `n`, ascending. */
  function SetBits(mask: nat, n: nat): (r: seq<nat>) {
    if n == 0 then [] else SetBits(mask, n - 1) + (if Bit(mask, n - 1) then [n - 1] else [])
  }

  lemma {:induction false} AddTopBit(x: nat, k: nat)
    requires x < Pow2(k)
    ensures CountOnes(x + Pow2(k)) == CountOnes(x) + 1
    decreases k
  {
    if k > 0 {
      AddTopBit(x / 2, k - 1);
      assert (x + Pow2(k)) / 2 == x / 2 + Pow2(k - 1) && (x + Pow2(k)) % 2 == x % 2;
    } else {
      assert CountOnes(1) == 1 + CountOnes(0);
    }
  }

  lemma LowBits(x: nat, k: nat)
    ensures x % Pow2(k + 1) == x % Pow2(k) + (if Bit(x, k) then Pow2(k) else 0)
  {
    var p := Pow2(k);
    var q, r := x / p, x % p;
    assert q == 2 * (q / 2) + q % 2;
    assert x == p * q + r;
    assert p * q == (2 * p) * (q / 2) + p * (q % 2);
    ModuloUnique(x, 2 * p, q / 2, p * (q % 2) + r);
  }

  lemma NothingBelow(mask: nat)
    ensures CountOnes(BitAnd(mask, Pow2(0) - 1)) == 0
  {
  }

  /** Counting the bits below a register gives its place in the packed order. */
  lemma {:induction false} RankIsCount(mask: nat, n: nat)
    ensures CountOnes(BitAnd(mask, Pow2(n) - 1)) == |SetBits(mask, n)|
    decreases n
  {
    hide BitAnd, CountOnes, Bit, Pow2;
    MaskIsModulo(mask, n);
    if n == 0 {
      NothingBelow(mask);
    } else {
      RankIsCount(mask, n - 1);
      MaskIsModulo(mask, n - 1);
      LowBits(mask, n - 1);
      if Bit(mask, n - 1) {
        AddTopBit(mask % Pow2(n - 1), n - 1);
      }
    }
  }

  lemma {:induction false} SetBitsExtend(mask: nat, m: nat, n: nat)
    requires m <= n
    ensures |SetBits(mask, m)| <= |SetBits(mask, n)| && SetBits(mask, n)[..|SetBits(mask, m)|] == SetBits(mask, m)
    decreases n
  {
    hide Bit;
    if m < n {
      SetBitsExtend(mask, m, n - 1);
    }
  }

  lemma RankOfBit(mask: nat, k: nat, n: nat)
    requires k < n && Bit(mask, k)
    ensures |SetBits(mask, k)| < |SetBits(mask, n)| && SetBits(mask, n)[|SetBits(mask, k)|] == k
  {
    hide Bit;
    SetBitsExtend(mask, k + 1, n);
    var some := SetBits(mask, k + 1);
    assert some == SetBits(mask, k) + [k];
    assert SetBits(mask, n)[|SetBits(mask, k)|] == SetBits(mask, n)[..|some|][|SetBits(mask, k)|];
  }

  // ---------------------------------------------------------------- one register

  /** What the kernel stores: the values of the set registers, in ascending order. */
  function Packed(values: nat -> nat, mask: nat): (r: seq<nat>) {
    var bits := SetBits(mask, 64);
    seq(|bits|, i requires 0 <= i < |bits| => values(bits[i]))
  }

  function RegValue(regs: seq<nat>, mask: nat, register: nat): (r: Option<nat>) {
    if register >= 64 || BitAnd(mask, Pow2(register)) == 0 then None
    else
      var index := CountOnes(BitAnd(mask, Pow2(register) - 1));
      if index < |regs| then Some(regs[index]) else None
  }

  /** From packed values cut after the first `kept`, a register reads as its own
      value exactly if its bit is set and its place was kept. */
  lemma RegValueIsExact(values: nat -> nat, mask: nat, register: nat, kept: nat)
    requires kept <= |Packed(values, mask)|
    ensures RegValue(Packed(values, mask)[..kept], mask, register) ==
      if register < 64 && Bit(mask, register) && |SetBits(mask, register)| < kept
      then Some(values(register)) else None
  {
    hide BitAnd, CountOnes, Bit, Pow2, SetBits;
    if register < 64 {
      TestBit(mask, register);
      RankIsCount(mask, register);
      if Bit(mask, register) {
        RankOfBit(mask, register, 64);
      }
    }
  }

  // -------------------------------------------------------------------- x86-64

  datatype Reg =
    | RAX | RDX | RCX | RBX | RSI | RDI | RBP | RSP
    | R8 | R9 | R10 | R11 | R12 | R13 | R14 | R15

  const PERF_BP: nat := 6
  const PERF_SP: nat := 7
  const PERF_IP: nat := 8

  const GENERAL_REGISTERS: seq<(nat, Reg)> := [
    (0, RAX), (3, RDX), (2, RCX), (1, RBX), (4, RSI), (5, RDI), (6, RBP), (7, RSP),
    (16, R8), (17, R9), (18, R10), (19, R11), (20, R12), (21, R13), (22, R14), (23, R15)]

  predicate Requested(k: nat) {
    k <= 8 || 16 <= k <= 23
  }

  function FoldMask(mask: nat, table: seq<(nat, Reg)>): (r: nat)
    decreases |table|
  {
    if table == [] then mask else FoldMask(BitOr(mask, Pow2(table[0].0)), table[1..])
  }

  function RegsMask(): (r: nat) {
    FoldMask(Pow2(PERF_IP), GENERAL_REGISTERS)
  }

  predicate Names(table: seq<(nat, Reg)>, k: nat) {
    exists i :: 0 <= i < |table| && table[i].0 == k
  }

  lemma {:induction false} FoldBits(mask: nat, table: seq<(nat, Reg)>, k: nat)
    ensures Bit(FoldMask(mask, table), k) <==> Bit(mask, k) || Names(table, k)
    decreases |table|
  {
    if table != [] {
      hide Bit, BitOr, Pow2, Names;
      var next := BitOr(mask, Pow2(table[0].0));
      FoldBits(next, table[1..], k);
      OrBits(mask, Pow2(table[0].0), k);
      PowerBit(table[0].0, k);
      NamesCons(table, k);
    }
  }

  lemma NamesCons(table: seq<(nat, Reg)>, k: nat)
    requires table != []
    ensures Names(table, k) <==> table[0].0 == k || Names(table[1..], k)
  {
    if table[0].0 != k && Names(table, k) {
      var i :| 0 <= i < |table| && table[i].0 == k;
      assert table[1..][i - 1].0 == k;
    }
    if Names(table[1..], k) {
      var i :| 0 <= i < |table[1..]| && table[1..][i].0 == k;
      assert table[i + 1].0 == k;
    }
  }

  function Place(reg: Reg): (i: nat) {
    match reg
    case RAX => 0 case RDX => 1 case RCX => 2 case RBX => 3 case RSI => 4 case RDI => 5 case RBP => 6 case RSP => 7
    case R8 => 8 case R9 => 9 case R10 => 10 case R11 => 11 case R12 => 12 case R13 => 13 case R14 => 14 case R15 => 15
  }

  lemma TableEntry(i: nat)
    requires i < 16
    ensures |GENERAL_REGISTERS| == 16 && Place(GENERAL_REGISTERS[i].1) == i
    ensures Requested(GENERAL_REGISTERS[i].0) && GENERAL_REGISTERS[i].0 != PERF_IP
  {
  }

  lemma TableNames(k: nat)
    ensures Names(GENERAL_REGISTERS, k) <==> Requested(k) && k != PERF_IP
  {
    var t := GENERAL_REGISTERS;
    if Names(t, k) {
      var i :| 0 <= i < |t| && t[i].0 == k;
      TableEntry(i);
    }
    if Requested(k) && k != PERF_IP {
      var i := if k == 1 then 3 else if k == 3 then 1 else if k < 8 then k else k - 8;
      assert t[i].0 == k;
    }
  }

  /** The mask asks for the instruction pointer and every general register. */
  lemma MaskBits(k: nat)
    ensures Bit(RegsMask(), k) <==> Requested(k)
  {
    hide Bit, FoldMask, Names;
    FoldBits(Pow2(PERF_IP), GENERAL_REGISTERS, k);
    PowerBit(PERF_IP, k);
    TableNames(k);
  }

  /** Place of a requested register among the requested ones. */
  function Rank(k: nat): (n: nat) {
    if k <= 9 then k else if k <= 16 then 9 else if k <= 24 then k - 7 else 17
  }

  lemma {:induction false} MaskRank(k: nat)
    ensures |SetBits(RegsMask(), k)| == Rank(k)
  {
    hide Bit, RegsMask;
    if k > 0 {
      MaskRank(k - 1);
      MaskBits(k - 1);
    }
  }

  lemma RequestedValue(regs: seq<nat>, k: nat)
    requires Requested(k)
    ensures RegValue(regs, RegsMask(), k) == if Rank(k) < |regs| then Some(regs[Rank(k)]) else None
  {
    hide BitAnd, CountOnes, Bit, Pow2, SetBits, RegsMask;
    MaskBits(k);
    MaskRank(k);
    TestBit(RegsMask(), k);
    RankIsCount(RegsMask(), k);
  }

  datatype UnwindRegs = UnwindRegs(ip: nat, general: map<Reg, nat>)

  /** All registers of a sample, or nothing if one is missing. */
  method ConvertRegs(regs: seq<nat>) returns (r: Option<(nat, nat, UnwindRegs)>)
    ensures r.Some? <==> |regs| >= 17
    ensures r.Some? ==> r.value.0 == regs[8] && r.value.1 == regs[7] && r.value.2.ip == regs[8]
    ensures r.Some? ==> r.value.2.general == map[
      RAX := regs[0], RBX := regs[1], RCX := regs[2], RDX := regs[3], RSI := regs[4], RDI := regs[5], RBP := regs[6],
      RSP := regs[7], R8 := regs[9], R9 := regs[10], R10 := regs[11], R11 := regs[12], R12 := regs[13], R13 := regs[14],
      R14 := regs[15], R15 := regs[16]]
  {
    hide RegValue, RegsMask;
    var mask := RegsMask();
    RequestedValue(regs, PERF_IP);
    RequestedValue(regs, PERF_SP);
    RequestedValue(regs, PERF_BP);
    var ip := RegValue(regs, mask, PERF_IP);
    var sp := RegValue(regs, mask, PERF_SP);
    var bp := RegValue(regs, mask, PERF_BP);
    if ip == None || sp == None || bp == None {
      return None;
    }
    var unwind := UnwindRegs(ip.value, map[RSP := sp.value, RBP := bp.value]);
    for i := 0 to 16
      invariant unwind.ip == ip.value && Converted(regs, unwind.general, i)
      invariant i == 16 ==> |regs| >= 17
    {
      TableEntry(i);
      var (perf, reg) := GENERAL_REGISTERS[i];
      RequestedValue(regs, perf);
      var value := RegValue(regs, mask, perf);
      if value == None {
        return None;
      }
      SetKeeps(regs, unwind.general, i, value.value);
      unwind := unwind.(general := unwind.general[reg := value.value]);
      assert i == 15 ==> perf == 23;
    }
    ConvertedAll(regs, unwind.general);
    return Some((ip.value, sp.value, unwind));
  }

  /** The first `n` table entries hold the values the kernel packed for them. */
  ghost predicate Converted(regs: seq<nat>, general: map<Reg, nat>, n: nat) {
    forall i :: 0 <= i < n && i < |GENERAL_REGISTERS| ==>
      && Rank(GENERAL_REGISTERS[i].0) < |regs| && GENERAL_REGISTERS[i].1 in general
      && general[GENERAL_REGISTERS[i].1] == regs[Rank(GENERAL_REGISTERS[i].0)]
  }

  lemma ConvertedAll(regs: seq<nat>, general: map<Reg, nat>)
    requires |regs| >= 17 && Converted(regs, general, 16)
    ensures general == map[
      RAX := regs[0], RBX := regs[1], RCX := regs[2], RDX := regs[3], RSI := regs[4], RDI := regs[5], RBP := regs[6],
      RSP := regs[7], R8 := regs[9], R9 := regs[10], R10 := regs[11], R11 := regs[12], R12 := regs[13], R13 := regs[14],
      R14 := regs[15], R15 := regs[16]]
  {
    hide Converted;
    var want := map[
      RAX := regs[0], RBX := regs[1], RCX := regs[2], RDX := regs[3], RSI := regs[4], RDI := regs[5], RBP := regs[6],
      RSP := regs[7], R8 := regs[9], R9 := regs[10], R10 := regs[11], R11 := regs[12], R12 := regs[13], R13 := regs[14],
      R14 := regs[15], R15 := regs[16]];
    forall reg: Reg
      ensures reg in general && reg in want && general[reg] == want[reg]
    {
      match reg
      case RAX => ConvertedAt(regs, general, 0, 0, reg);
      case RDX => ConvertedAt(regs, general, 1, 3, reg);
      case RCX => ConvertedAt(regs, general, 2, 2, reg);
      case RBX => ConvertedAt(regs, general, 3, 1, reg);
      case RSI => ConvertedAt(regs, general, 4, 4, reg);
      case RDI => ConvertedAt(regs, general, 5, 5, reg);
      case RBP => ConvertedAt(regs, general, 6, 6, reg);
      case RSP => ConvertedAt(regs, general, 7, 7, reg);
      case R8 => ConvertedAt(regs, general, 8, 16, reg);
      case R9 => ConvertedAt(regs, general, 9, 17, reg);
      case R10 => ConvertedAt(regs, general, 10, 18, reg);
      case R11 => ConvertedAt(regs, general, 11, 19, reg);
      case R12 => ConvertedAt(regs, general, 12, 20, reg);
      case R13 => ConvertedAt(regs, general, 13, 21, reg);
      case R14 => ConvertedAt(regs, general, 14, 22, reg);
      case R15 => ConvertedAt(regs, general, 15, 23, reg);
    }
  }

  lemma ConvertedAt(regs: seq<nat>, general: map<Reg, nat>, i: nat, perf: nat, reg: Reg)
    requires Converted(regs, general, 16) && i < 16 && GENERAL_REGISTERS[i] == (perf, reg)
    ensures Rank(perf) < |regs| && reg in general && general[reg] == regs[Rank(perf)]
  {
  }

  lemma SetKeeps(regs: seq<nat>, general: map<Reg, nat>, n: nat, value: nat)
    requires n < 16 && Converted(regs, general, n)
    requires Rank(GENERAL_REGISTERS[n].0) < |regs| && value == regs[Rank(GENERAL_REGISTERS[n].0)]
    ensures Converted(regs, general[GENERAL_REGISTERS[n].1 := value], n + 1)
  {
    forall i | 0 <= i < n + 1
      ensures Place(GENERAL_REGISTERS[i].1) == i
    {
      TableEntry(i);
    }
  }

  /** What the kernel packs for the mask: 17 values, each at its rank. */
  lemma PackedAtRank(values: nat -> nat, k: nat)
    requires Requested(k)
    ensures |Packed(values, RegsMask())| == 17
    ensures At(Packed(values, RegsMask()), Rank(k)) == Some(values(k))
  {
    hide Bit, RegsMask, SetBits;
    MaskRank(64);
    MaskRank(k);
    MaskBits(k);
    PackedPlace(values, RegsMask(), k);
  }

  /** The kernel packs the registers asked for by number: 0 to 8, then 16 to 23. */
  lemma PackedIs(values: nat -> nat)
    ensures Packed(values, RegsMask()) == [
      values(0), values(1), values(2), values(3), values(4), values(5), values(6), values(7), values(8),
      values(16), values(17), values(18), values(19), values(20), values(21), values(22), values(23)]
  {
    hide Bit, RegsMask, SetBits, Packed;
    var p := Packed(values, RegsMask());
    PackedAtRank(values, 0);
    forall k | Requested(k)
      ensures Rank(k) < 17 && p[Rank(k)] == values(k)
    {
      PackedAtRank(values, k);
    }
    assert p == p[..9] + p[9..];
    assert p[..9] == [values(0), values(1), values(2), values(3), values(4), values(5), values(6), values(7), values(8)] by {
      assert forall k: nat :: k <= 8 ==> Requested(k) && Rank(k) == k;
    }
    assert p[9..] == [values(16), values(17), values(18), values(19), values(20), values(21), values(22), values(23)] by {
      assert forall k: nat :: 16 <= k <= 23 ==> Requested(k) && Rank(k) == k - 7;
    }
  }

  /** A sample taken with the mask gives every register its own value. */
  method ConvertSampled(values: nat -> nat) returns (r: Option<(nat, nat, UnwindRegs)>)
    ensures r == Some((values(8), values(7), UnwindRegs(values(8), map[
      RAX := values(0), RBX := values(1), RCX := values(2), RDX := values(3),
      RSI := values(4), RDI := values(5), RBP := values(6), RSP := values(7),
      R8 := values(16), R9 := values(17), R10 := values(18), R11 := values(19),
      R12 := values(20), R13 := values(21), R14 := values(22), R15 := values(23)])))
  {
    PackedIs(values);
    hide Packed, RegsMask;
    r := ConvertRegs(Packed(values, RegsMask()));
  }

  function At(s: seq<nat>, i: nat): Option<nat> {
    if i < |s| then Some(s[i]) else None
  }

  lemma PackedPlace(values: nat -> nat, mask: nat, k: nat)
    requires k < 64 && Bit(mask, k)
    ensures |Packed(values, mask)| == |SetBits(mask, 64)|
    ensures At(Packed(values, mask), |SetBits(mask, k)|) == Some(values(k))
  {
    hide Bit, SetBits;
    RankOfBit(mask, k, 64);
  }
}
