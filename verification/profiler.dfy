/**
 * Profiler blocks: the cost of a block of instructions, and the two orderings
 * by which block lists are sorted for reports (by execution count and by
 * cumulative cycle cost).
 */
module Profiler {
  import opened Words

  /** Per-instruction profile data. Only the execution count and the
      cumulative cycle cost take part in block costs; how the profiler
      accumulates them is not part of this model. */
  datatype ProfileData = ProfileData(count: UInt64, cumulativeCost: UInt64)

  datatype Block = Block(
    data: seq<ProfileData>,
    blockLabel: string,  // `Label`; `label` is a keyword in Dafny
    startLine: int,
    endLine: int,
    startAddr: Word,
    endAddr: Word)

  type BlockList = seq<Block>

  /** Reference sums, with no wrap-around. */
  function SumCount(data: seq<ProfileData>): nat {
    if data == [] then 0 else data[0].count + SumCount(data[1..])
  }

  function SumCost(data: seq<ProfileData>): nat {
    if data == [] then 0 else data[0].cumulativeCost + SumCost(data[1..])
  }

  /** Both totals, each kept in a wrapping uint64. */
  datatype Totals = Totals(count: UInt64, cost: UInt64)

  /** The loop of `Cost` from index `pc` on, with the running totals
      wrapping at every addition. */
  function CostFrom(data: seq<ProfileData>, pc: nat, acc: Totals): Totals
    requires pc <= |data|
    decreases |data| - pc
  {
    if pc == |data| then
      acc
    else
      var next := Totals(Wrap64(acc.count + data[pc].count), Wrap64(acc.cost + data[pc].cumulativeCost));
      CostFrom(data, pc + 1, next)
  }

  /** The loop's count is the wrapped exact sum of the counts. */
  lemma {:induction false} CountFromIsWrappedSum(data: seq<ProfileData>, pc: nat, acc: Totals)
    requires pc <= |data|
    ensures CostFrom(data, pc, acc).count == Wrap64(acc.count + SumCount(data[pc..]))
    decreases |data| - pc
  {
    if pc < |data| {
      var next := Totals(Wrap64(acc.count + data[pc].count), Wrap64(acc.cost + data[pc].cumulativeCost));
      assert CostFrom(data, pc, acc) == CostFrom(data, pc + 1, next);
      CountFromIsWrappedSum(data, pc + 1, next);
      SumsFrom(data, pc);
      var x, rest := acc.count + data[pc].count, SumCount(data[pc + 1..]);
      WrapAbsorbs(x, rest);
      assert acc.count + SumCount(data[pc..]) == x + rest;
    } else {
      assert data[pc..] == [];
    }
  }

  /** The loop's cost is the wrapped exact sum of the cumulative costs. */
  lemma {:induction false} CostFromIsWrappedSum(data: seq<ProfileData>, pc: nat, acc: Totals)
    requires pc <= |data|
    ensures CostFrom(data, pc, acc).cost == Wrap64(acc.cost + SumCost(data[pc..]))
    decreases |data| - pc
  {
    if pc < |data| {
      var next := Totals(Wrap64(acc.count + data[pc].count), Wrap64(acc.cost + data[pc].cumulativeCost));
      assert CostFrom(data, pc, acc) == CostFrom(data, pc + 1, next);
      CostFromIsWrappedSum(data, pc + 1, next);
      SumsFrom(data, pc);
      var x, rest := acc.cost + data[pc].cumulativeCost, SumCost(data[pc + 1..]);
      WrapAbsorbs(x, rest);
      assert acc.cost + SumCost(data[pc..]) == x + rest;
    } else {
      assert data[pc..] == [];
    }
  }

  /** The sums from `pc` on are the entry at `pc` plus the sums after it. */
  lemma SumsFrom(data: seq<ProfileData>, pc: nat)
    requires pc < |data|
    ensures SumCount(data[pc..]) == data[pc].count + SumCount(data[pc + 1..])
    ensures SumCost(data[pc..]) == data[pc].cumulativeCost + SumCost(data[pc + 1..])
  {
    assert data[pc..][1..] == data[pc + 1..];
  }

  /** Wrapping an intermediate sum does not change the wrapped total. */
  lemma WrapAbsorbs(x: int, y: int)
    ensures Wrap64(Wrap64(x) + y) == Wrap64(x + y)
  {
    var m := UInt64Modulus;
    var q := x / m;
    assert x == q * m + Wrap64(x);
    assert x + y == q * m + (Wrap64(x) + y);
    ModOfShift(Wrap64(x) + y, q);
  }

  lemma WrapSum(x: int, y: int)
    ensures Wrap64(Wrap64(x) + Wrap64(y)) == Wrap64(x + y)
  {
    WrapAbsorbs(x, Wrap64(y));
    WrapAbsorbs(y, x);
  }

  lemma ModOfShift(z: int, q: int)
    ensures (q * UInt64Modulus + z) % UInt64Modulus == z % UInt64Modulus
  {
  }

  /** The block's total execution count and cumulative cost. */
  function Cost(b: Block): (r: Totals)
    ensures r.count == Wrap64(SumCount(b.data))
    ensures r.cost == Wrap64(SumCost(b.data))
  {
    CountFromIsWrappedSum(b.data, 0, Totals(0, 0));
    CostFromIsWrappedSum(b.data, 0, Totals(0, 0));
    CostFrom(b.data, 0, Totals(0, 0))
  }

  /** Sorting by count: `i` goes before `j` when its count is at least as
      large. */
  function LessByCount(s: BlockList, i: nat, j: nat): (r: bool)
    requires i < |s| && j < |s|
    ensures r <==> Wrap64(SumCount(s[i].data)) >= Wrap64(SumCount(s[j].data))
  {
    Cost(s[i]).count >= Cost(s[j]).count
  }

  /** Sorting by cumulative cost, likewise. */
  function LessByCost(s: BlockList, i: nat, j: nat): (r: bool)
    requires i < |s| && j < |s|
    ensures r <==> Wrap64(SumCost(s[i].data)) >= Wrap64(SumCost(s[j].data))
  {
    Cost(s[i]).cost >= Cost(s[j]).cost
  }

  /** The exchange both sortable views use. */
  function Swap(s: BlockList, i: nat, j: nat): (r: BlockList)
    requires i < |s| && j < |s|
    ensures |r| == |s|
    ensures r[i] == s[j] && r[j] == s[i]
    ensures forall k :: 0 <= k < |s| && k != i && k != j ==> r[k] == s[k]
    ensures multiset(r) == multiset(s)
  {
    s[i := s[j]][j := s[i]]
  }

  /** A block with no instructions costs nothing. */
  lemma EmptyBlockCostsNothing(b: Block)
    requires b.data == []
    ensures Cost(b) == Totals(0, 0)
  {
  }

  lemma {:induction false} SumsAppend(d1: seq<ProfileData>, d2: seq<ProfileData>)
    ensures SumCount(d1 + d2) == SumCount(d1) + SumCount(d2)
    ensures SumCost(d1 + d2) == SumCost(d1) + SumCost(d2)
    decreases |d1|
  {
    if d1 == [] {
      assert d1 + d2 == d2;
    } else {
      assert (d1 + d2)[0] == d1[0];
      assert (d1 + d2)[1..] == d1[1..] + d2;
      SumsAppend(d1[1..], d2);
    }
  }

  /** Adds two totals the way the emulator's uint64 counters add. */
  function AddTotals(t1: Totals, t2: Totals): Totals {
    Totals(Wrap64(t1.count + t2.count), Wrap64(t1.cost + t2.cost))
  }

  /** The totals of a block made of two runs of instructions are the
      wrapping sums of the two runs' totals. */
  lemma {:induction false} CostOfConcatenation(b1: Block, b2: Block, b: Block)
    requires b.data == b1.data + b2.data
    ensures Cost(b) == AddTotals(Cost(b1), Cost(b2))
  {
    var n1, n2 := SumCount(b1.data), SumCount(b2.data);
    var k1, k2 := SumCost(b1.data), SumCost(b2.data);
    ConcatCount(b1.data, b2.data);
    ConcatCost(b1.data, b2.data);
    WrappedPair(n1, n2, k1, k2, Cost(b1), Cost(b2), Cost(b));
  }

  lemma WrappedPair(n1: int, n2: int, k1: int, k2: int, t1: Totals, t2: Totals, t: Totals)
    requires t1 == Totals(Wrap64(n1), Wrap64(k1)) && t2 == Totals(Wrap64(n2), Wrap64(k2))
    requires t.count == Wrap64(Wrap64(n1) + Wrap64(n2)) && t.cost == Wrap64(Wrap64(k1) + Wrap64(k2))
    ensures t == AddTotals(t1, t2)
  {
  }

  lemma ConcatCount(d1: seq<ProfileData>, d2: seq<ProfileData>)
    ensures Wrap64(SumCount(d1 + d2)) == Wrap64(Wrap64(SumCount(d1)) + Wrap64(SumCount(d2)))
  {
    SumsAppend(d1, d2);
    WrapSum(SumCount(d1), SumCount(d2));
  }

  lemma ConcatCost(d1: seq<ProfileData>, d2: seq<ProfileData>)
    ensures Wrap64(SumCost(d1 + d2)) == Wrap64(Wrap64(SumCost(d1)) + Wrap64(SumCost(d2)))
  {
    SumsAppend(d1, d2);
    WrapSum(SumCost(d1), SumCost(d2));
  }

  /** Both orderings are total preorders and, being built on `>=`, are
      reflexive: a block is always "less" than itself, so neither is a strict
      order. */
  lemma OrderingsArePreorders(s: BlockList)
    ensures forall i | 0 <= i < |s| :: LessByCount(s, i, i) && LessByCost(s, i, i)
    ensures forall i, j | 0 <= i < |s| && 0 <= j < |s| ::
              (LessByCount(s, i, j) || LessByCount(s, j, i)) && (LessByCost(s, i, j) || LessByCost(s, j, i))
    ensures forall i, j, k | 0 <= i < |s| && 0 <= j < |s| && 0 <= k < |s| ::
              LessByCount(s, i, j) && LessByCount(s, j, k) ==> LessByCount(s, i, k)
    ensures forall i, j, k | 0 <= i < |s| && 0 <= j < |s| && 0 <= k < |s| ::
              LessByCost(s, i, j) && LessByCost(s, j, k) ==> LessByCost(s, i, k)
  {
  }

  /** Swapping twice restores the list. */
  lemma SwapIsInvolution(s: BlockList, i: nat, j: nat)
    requires i < |s| && j < |s|
    ensures Swap(Swap(s, i, j), i, j) == s
  {
  }

  /** After a swap, comparing positions i and j compares the blocks that
      were at j and i. */
  lemma SwapExchangesComparison(s: BlockList, i: nat, j: nat)
    requires i < |s| && j < |s|
    ensures LessByCount(Swap(s, i, j), i, j) == LessByCount(s, j, i)
    ensures LessByCost(Swap(s, i, j), i, j) == LessByCost(s, j, i)
  {
  }
}
