/** The Fenwick tree over visible block counts (seqTree in crdt/seq.go). */
module Fenwick {

  // ---- low bits ----

  /** i & -i: the largest power of two that divides i. */
  function LowBit(i: nat): (b: nat)
    requires i > 0
    ensures 1 <= b <= i
  {
    if i % 2 == 1 then 1 else 2 * LowBit(i / 2)
  }

  /** The block numbers (one-based) that node j sums. */
  predicate InSpan(x: nat, j: nat)
    requires j > 0
  {
    j - LowBit(j) < x <= j
  }

  function Up(i: nat): (p: nat)
    requires i > 0
    ensures p > i
  {
    i + LowBit(i)
  }

  /** Climbing from inside a span stays inside it. */
  lemma {:induction false} UpStays(x: nat, j: nat)
    requires 0 < x < j && InSpan(x, j)
    ensures Up(x) <= j && InSpan(Up(x), j)
  {
    if j % 2 == 0 && x % 2 == 0 {
      UpStays(x / 2, j / 2);
    }
  }

  /** The span of x lies inside that of its parent. */
  lemma {:induction false} UpCovers(x: nat)
    requires x > 0
    ensures LowBit(Up(x)) >= 2 * LowBit(x)
  {
    if x % 2 == 0 {
      UpCovers(x / 2);
      assert Up(x) == 2 * Up(x / 2);
    }
  }

  /** Two spans are nested or apart. */
  lemma {:induction false} SpanInside(x: nat, j: nat)
    requires 0 < x <= j && InSpan(x, j)
    ensures j - LowBit(j) <= x - LowBit(x)
  {
    if x < j && x % 2 == 0 && j % 2 == 0 {
      SpanInside(x / 2, j / 2);
    }
  }

  /** Descending by one low bit from j - 1 walks over the children of j. */
  lemma {:induction false} NextChild(c: nat, j: nat)
    requires 0 < c < j && Up(c) == j && c - LowBit(c) > j - LowBit(j)
    ensures Up(c - LowBit(c)) == j
  {
    if c % 2 == 0 {
      assert Up(c / 2) == j / 2;
      NextChild(c / 2, j / 2);
    } else {
      OddChild(c, j);
    }
  }

  lemma OddChild(c: nat, j: nat)
    requires c % 2 == 1 && j == c + 1 && c - 1 > j - LowBit(j)
    ensures Up((c - 1) as nat) == j
  {
    assert LowBit(j) == 2 * LowBit(j / 2);
    assert (j / 2) % 2 == 0;
    assert LowBit((c - 1) / 2) == 1;
  }

  // ---- sums ----

  function Sum(counts: seq<int>, a: nat, b: nat): int
    requires a <= b <= |counts|
    decreases b - a
  {
    if a == b then 0 else Sum(counts, a, b - 1) + counts[b - 1]
  }

  lemma {:induction false} SumSplit(counts: seq<int>, a: nat, b: nat, c: nat)
    requires a <= b <= c <= |counts|
    ensures Sum(counts, a, c) == Sum(counts, a, b) + Sum(counts, b, c)
    decreases c - b
  {
    if b < c { SumSplit(counts, a, b, c - 1); }
  }

  ghost predicate NonNegative(counts: seq<int>) {
    forall i :: 0 <= i < |counts| ==> counts[i] >= 0
  }

  lemma {:induction false} SumNonNegative(counts: seq<int>, a: nat, b: nat)
    requires a <= b <= |counts| && NonNegative(counts)
    ensures Sum(counts, a, b) >= 0
    decreases b - a
  {
    if a < b { SumNonNegative(counts, a, b - 1); }
  }

  function Span(counts: seq<int>, i: nat): int
    requires 0 < i <= |counts|
  {
    Sum(counts, i - LowBit(i), i)
  }

  /** Every node holds the sum over its span. */
  ghost predicate Holds(nodes: seq<int>, counts: seq<int>) {
    && |nodes| == |counts| + 1 && nodes[0] == 0
    && forall i :: 0 < i <= |counts| ==> nodes[i] == Span(counts, i)
  }

  // ---- build ----

  /** What the nodes up to q have passed on to their parent j. */
  function FromChildren(counts: seq<int>, j: nat, q: nat): int
    requires q <= |counts|
  {
    if q == 0 then 0
    else FromChildren(counts, j, q - 1) + if Up(q) == j then Span(counts, q) else 0
  }

  lemma {:induction false} NoChildrenBetween(counts: seq<int>, j: nat, a: nat, q: nat)
    requires a <= q <= |counts| && forall x :: a < x <= q ==> Up(x) != j
    ensures FromChildren(counts, j, q) == FromChildren(counts, j, a)
    decreases q - a
  {
    if a < q { NoChildrenBetween(counts, j, a, q - 1); }
  }

  lemma {:induction false} ChainSum(counts: seq<int>, j: nat, c: nat)
    requires 0 < j <= |counts| && c < j && (c == j - LowBit(j) || (c > 0 && Up(c) == j))
    ensures j - LowBit(j) <= c
    ensures FromChildren(counts, j, c) == Sum(counts, j - LowBit(j), c)
    decreases c
  {
    var low := j - LowBit(j);
    if c == low {
      forall x | 0 < x <= c ensures Up(x) != j {
        if Up(x) == j { UpCovers(x); }
      }
      NoChildrenBetween(counts, j, 0, c);
    } else {
      UpCovers(c);
      assert InSpan(c, j);
      SpanInside(c, j);
      var below := c - LowBit(c);
      if below != low { NextChild(c, j); }
      ChainSum(counts, j, below);
      forall x | below < x <= c - 1 ensures Up(x) != j { UpStays(x, c); }
      NoChildrenBetween(counts, j, below, c - 1);
      SumSplit(counts, low, below, c);
    }
  }

  /** A count and what the children passed on make up the span. */
  lemma ChildrenCover(counts: seq<int>, j: nat, q: nat)
    requires 0 < j <= |counts| && j - 1 <= q <= |counts|
    ensures counts[j - 1] + FromChildren(counts, j, q) == Span(counts, j)
  {
    NoChildrenBetween(counts, j, j - 1, q);
    if LowBit(j) > 1 { assert Up((j - 1) as nat) == j; }
    ChainSum(counts, j, j - 1);
  }

  // ---- one count changes ----

  lemma {:induction false} SumUpdate(counts: seq<int>, k: nat, delta: int, a: nat, b: nat)
    requires k < |counts| && a <= b <= |counts|
    ensures Sum(counts[k := counts[k] + delta], a, b) == Sum(counts, a, b) + if a <= k < b then delta else 0
    decreases b - a
  {
    if a < b { SumUpdate(counts, k, delta, a, b - 1); }
  }

  lemma SpanUpdate(counts: seq<int>, k: nat, delta: int, j: nat)
    requires k < |counts| && 0 < j <= |counts|
    ensures Span(counts[k := counts[k] + delta], j) == Span(counts, j) + if InSpan(k + 1, j) then delta else 0
  {
    SumUpdate(counts, k, delta, j - LowBit(j), j);
  }

  /** One climb of add: between i and its parent no node spans i, and from the
      parent on the same nodes span both. */
  lemma ClimbStep(i: nat, j: nat)
    requires 0 < i < j
    ensures j < Up(i) ==> !InSpan(i, j)
    ensures Up(i) <= j ==> (InSpan(i, j) <==> InSpan(Up(i), j))
  {
    if InSpan(i, j) { UpStays(i, j); }
    if Up(i) <= j && InSpan(Up(i), j) {
      SpanInside(Up(i), j);
      UpCovers(i);
    }
  }

  // ---- search ----

  predicate PowerOfTwo(b: nat) {
    b == 1 || (b > 1 && b % 2 == 0 && PowerOfTwo(b / 2))
  }

  /** pos is a multiple of the power of two b. */
  predicate Aligned(pos: nat, b: nat)
    requires PowerOfTwo(b)
  {
    b == 1 || (pos % 2 == 0 && Aligned(pos / 2, b / 2))
  }

  lemma {:induction false} ZeroAligned(b: nat)
    requires PowerOfTwo(b)
    ensures Aligned(0, b)
  {
    if b > 1 { ZeroAligned(b / 2); }
  }

  /** A multiple of 2b is one of b, and so is b more than it, with low bit b. */
  lemma {:induction false} AlignedStep(pos: nat, b: nat)
    requires b > 0 && PowerOfTwo(b) && PowerOfTwo(2 * b) && Aligned(pos, 2 * b)
    ensures Aligned(pos, b) && Aligned(pos + b, b)
    ensures LowBit(pos + b) == b
    decreases b
  {
    if b > 1 {
      assert 2 * b / 2 == b && 2 * (b / 2) == b;
      AlignedStep(pos / 2, b / 2);
      assert (pos + b) / 2 == pos / 2 + b / 2;
    }
  }

  /** The prefix sums of non-negative counts rise. */
  lemma PrefixRises(counts: seq<int>, a: nat, b: nat)
    requires NonNegative(counts) && a <= b <= |counts|
    ensures Sum(counts, 0, a) <= Sum(counts, 0, b)
  {
    SumSplit(counts, 0, a, b);
    SumNonNegative(counts, a, b);
  }

  /** At most one block covers a visible index, empty blocks included. */
  lemma CoverIsUnique(counts: seq<int>, index: int, a: nat, b: nat)
    requires NonNegative(counts) && a < |counts| && b < |counts|
    requires Sum(counts, 0, a) <= index < Sum(counts, 0, a + 1)
    requires Sum(counts, 0, b) <= index < Sum(counts, 0, b + 1)
    ensures a == b
  {
    if a < b { PrefixRises(counts, a + 1, b); }
    if b < a { PrefixRises(counts, b + 1, a); }
  }

  /** The largest power of two that is at most n. */
  function TopBit(n: nat): (b: nat)
    requires n > 0
    ensures PowerOfTwo(b) && b <= n < 2 * b
  {
    if n == 1 then 1 else 2 * TopBit(n / 2)
  }
}
