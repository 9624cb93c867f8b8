/**
 * The operator library of a decision-graph node (GraphNode.hpp, lines 155-317).
 *
 * Every operator is a pure function of the values of a node's inputs, in
 * input order, and of the node's default output (GetDefaultOutput()), which
 * is the fallback when there are too few inputs. Doubles are modelled as
 * reals, and each parallel std::reduce / std::transform_reduce is a
 * sequential left fold; SumAppend and ProductAppend show that over exact
 * reals the split point of a reduction does not change its result.
 */
module Operators {
  import opened Wrappers

  /** The libm functions the transcendental operators call; the model takes them as parameters. */
  datatype Libm = Libm(sin: real -> real, cos: real -> real, exp: real -> real, sqrt: real -> real)

  // ---------------------------------------------------------------------------
  // Reductions

  /** std::reduce(vals, 0., +), as a left fold. */
  function Sum(vals: seq<real>): real
    decreases |vals|
  {
    if vals == [] then 0.0 else Sum(vals[..|vals| - 1]) + vals[|vals| - 1]
  }

  /** std::reduce(vals, 1., *), as a left fold. */
  function Product(vals: seq<real>): real
    decreases |vals|
  {
    if vals == [] then 1.0 else Product(vals[..|vals| - 1]) * vals[|vals| - 1]
  }

  /** std::transform_reduce(vals, 0., +, f), as a left fold. */
  function SumOf(f: real -> real, vals: seq<real>): real
    decreases |vals|
  {
    if vals == [] then 0.0 else SumOf(f, vals[..|vals| - 1]) + f(vals[|vals| - 1])
  }

  lemma {:induction false} SumAppend(a: seq<real>, b: seq<real>)
    ensures Sum(a + b) == Sum(a) + Sum(b)
    decreases |b|
  {
    if b == [] {
      assert a + b == a;
    } else {
      assert (a + b)[..|a + b| - 1] == a + b[..|b| - 1];
      SumAppend(a, b[..|b| - 1]);
    }
  }

  lemma {:induction false} ProductAppend(a: seq<real>, b: seq<real>)
    ensures Product(a + b) == Product(a) * Product(b)
    decreases |b|
  {
    if b == [] {
      assert a + b == a;
    } else {
      assert (a + b)[..|a + b| - 1] == a + b[..|b| - 1];
      ProductAppend(a, b[..|b| - 1]);
    }
  }

  lemma {:induction false} SumOfAppend(f: real -> real, a: seq<real>, b: seq<real>)
    ensures SumOf(f, a + b) == SumOf(f, a) + SumOf(f, b)
    decreases |b|
  {
    if b == [] {
      assert a + b == a;
    } else {
      assert (a + b)[..|a + b| - 1] == a + b[..|b| - 1];
      SumOfAppend(f, a, b[..|b| - 1]);
    }
  }

  /** Sum of no inputs is 0 and of one input is that input; Product likewise with 1. */
  lemma ReductionUnits(x: real)
    ensures Sum([]) == 0.0 && Sum([x]) == x
    ensures Product([]) == 1.0 && Product([x]) == x
  {
  }

  // ---------------------------------------------------------------------------
  // Sum, NegSum, Product and the elementwise transform-then-sum operators

  function Negate(x: real): real { -x }

  /** NegSum: the negated Sum (line 281), which is the sum of the negated inputs. */
  function NegSum(vals: seq<real>): (r: real)
    ensures r == SumOf(Negate, vals)
  {
    SumNegated(vals);
    -Sum(vals)
  }

  /** Negating a sum is summing the negated inputs. */
  lemma {:induction false} SumNegated(vals: seq<real>)
    ensures -Sum(vals) == SumOf(Negate, vals)
    decreases |vals|
  {
    if vals != [] {
      SumNegated(vals[..|vals| - 1]);
    }
  }

  function SquareOf(x: real): real { x * x }

  /** std::max(0., x): (0 < x) ? x : 0. */
  function PosPart(x: real): real { if 0.0 < x then x else 0.0 }

  /** std::min(0., x): (x < 0) ? x : 0. */
  function NegPart(x: real): real { if x < 0.0 then x else 0.0 }

  /** Square: the sum of the squared inputs. */
  function Square(vals: seq<real>): real { SumOf(SquareOf, vals) }

  /** PosClamp: the sum of the inputs clamped below at 0. */
  function PosClamp(vals: seq<real>): real { SumOf(PosPart, vals) }

  /** NegClamp: the sum of the inputs clamped above at 0. */
  function NegClamp(vals: seq<real>): real { SumOf(NegPart, vals) }

  /** Sqrt: the sum of sqrt(max(0, x)) over the inputs, sqrt being libm's. */
  function Sqrt(libm: Libm, vals: seq<real>): real
  {
    SumOf(x => libm.sqrt(PosPart(x)), vals)
  }

  /** A transform-then-sum whose transform is never negative is never negative. */
  lemma {:induction false} SumOfNonNegative(f: real -> real, vals: seq<real>)
    requires forall x :: f(x) >= 0.0
    ensures SumOf(f, vals) >= 0.0
    decreases |vals|
  {
    if vals != [] {
      SumOfNonNegative(f, vals[..|vals| - 1]);
      assert f(vals[|vals| - 1]) >= 0.0;
    }
  }

  /** A transform-then-sum whose transform is never positive is never positive. */
  lemma {:induction false} SumOfNonPositive(f: real -> real, vals: seq<real>)
    requires forall x :: f(x) <= 0.0
    ensures SumOf(f, vals) <= 0.0
    decreases |vals|
  {
    if vals != [] {
      SumOfNonPositive(f, vals[..|vals| - 1]);
      assert f(vals[|vals| - 1]) <= 0.0;
    }
  }

  /** Square and PosClamp never go below 0, NegClamp never above 0. */
  lemma ClampSigns(vals: seq<real>)
    ensures Square(vals) >= 0.0
    ensures PosClamp(vals) >= 0.0
    ensures NegClamp(vals) <= 0.0
  {
    forall x ensures SquareOf(x) >= 0.0 {
      if x < 0.0 {
        assert SquareOf(x) == (-x) * (-x);
      }
    }
    SumOfNonNegative(SquareOf, vals);
    SumOfNonNegative(PosPart, vals);
    SumOfNonPositive(NegPart, vals);
  }

  /** Splitting every input into its positive and negative part: PosClamp + NegClamp == Sum. */
  lemma {:induction false} ClampsAddUpToSum(vals: seq<real>)
    ensures PosClamp(vals) + NegClamp(vals) == Sum(vals)
    decreases |vals|
  {
    if vals != [] {
      ClampsAddUpToSum(vals[..|vals| - 1]);
    }
  }

  // ---------------------------------------------------------------------------
  // And

  /** std::any_of(vals, val == x). */
  function AnyEqual(vals: seq<real>, x: real): bool
    decreases |vals|
  {
    vals != [] && (vals[0] == x || AnyEqual(vals[1..], x))
  }

  lemma {:induction false} AnyEqualMeaning(vals: seq<real>, x: real)
    ensures AnyEqual(vals, x) <==> exists k :: 0 <= k < |vals| && vals[k] == x
    decreases |vals|
  {
    if vals != [] {
      AnyEqualMeaning(vals[1..], x);
      if exists k :: 0 <= k < |vals| && vals[k] == x {
        var k :| 0 <= k < |vals| && vals[k] == x;
        if k > 0 {
          assert vals[1..][k - 1] == x;
        }
      }
      if AnyEqual(vals[1..], x) {
        var k :| 0 <= k < |vals[1..]| && vals[1..][k] == x;
        assert vals[k + 1] == x;
      }
    }
  }

  /** And: 0 if some input equals 0, otherwise 1 (line 166). */
  function And(vals: seq<real>): real
  {
    if AnyEqual(vals, 0.0) then 0.0 else 1.0
  }

  lemma AndMeaning(vals: seq<real>)
    ensures And(vals) == 0.0 <==> exists k :: 0 <= k < |vals| && vals[k] == 0.0
    ensures And(vals) == 1.0 <==> forall k :: 0 <= k < |vals| ==> vals[k] != 0.0
    ensures And([]) == 1.0
  {
    AnyEqualMeaning(vals, 0.0);
  }

  // ---------------------------------------------------------------------------
  // AnyEq

  /** AnyEq: the default with no inputs, otherwise 1 iff some input after the first equals the first. */
  function AnyEq(vals: seq<real>, default: real): real
  {
    if |vals| == 0 then default
    else if exists k :: 1 <= k < |vals| && vals[k] == vals[0] then 1.0
    else 0.0
  }

  /** The early-exit loop of AnyEq (lines 175-184). */
  method AnyEqScan(vals: seq<real>, default: real) returns (r: real)
    ensures r == AnyEq(vals, default)
  {
    if |vals| == 0 {
      return default;
    }
    for i := 1 to |vals|
      invariant forall k :: 1 <= k < i ==> vals[k] != vals[0]
    {
      if vals[0] == vals[i] {
        return 1.0;
      }
    }
    return 0.0;
  }

  // ---------------------------------------------------------------------------
  // Indexed input values, Not and Gate

  /** std::max_element over the requested indices. */
  function MaxIndex(indices: seq<nat>): (m: nat)
    requires |indices| > 0
    ensures m in indices
    ensures forall k :: 0 <= k < |indices| ==> indices[k] <= m
    decreases |indices|
  {
    if |indices| == 1 then indices[0]
    else
      var m := MaxIndex(indices[..|indices| - 1]);
      if m < indices[|indices| - 1] then indices[|indices| - 1] else m
  }

  /**
   * GetInputValues(indices) on the input values `vals` (lines 96-105): no value
   * when the largest index is out of range, otherwise the values at the
   * indices, in the order of the indices.
   */
  function Select(vals: seq<real>, indices: seq<nat>): (r: Option<seq<real>>)
    requires |indices| > 0
    ensures r.None? <==> exists k :: 0 <= k < |indices| && indices[k] >= |vals|
    ensures r.Some? ==> |r.value| == |indices|
    ensures r.Some? ==> forall k :: 0 <= k < |indices| ==> r.value[k] == vals[indices[k]]
  {
    if MaxIndex(indices) >= |vals| then None
    else Some(seq(|indices|, k requires 0 <= k < |indices| => vals[indices[k]]))
  }

  /** Not: 1 if input 0 is 0, else 0; the default without inputs (lines 189-194). */
  function Not(vals: seq<real>, default: real): (r: real)
    ensures |vals| == 0 ==> r == default
    ensures |vals| >= 1 ==> (r == 1.0 <==> vals[0] == 0.0) && (r == 0.0 <==> vals[0] != 0.0)
  {
    match Select(vals, [0])
    case None => default
    case Some(v) => if v[0] == 0.0 then 1.0 else 0.0
  }

  /** Gate: input 0 if input 1 is not 0, else 0; the default with fewer than 2 inputs (lines 200-205). */
  function Gate(vals: seq<real>, default: real): (r: real)
    ensures |vals| < 2 ==> r == default
    ensures |vals| >= 2 && vals[1] != 0.0 ==> r == vals[0]
    ensures |vals| >= 2 && vals[1] == 0.0 ==> r == 0.0
  {
    match Select(vals, [0, 1])
    case None => default
    case Some(v) => if v[1] != 0.0 then v[0] else 0.0
  }

  // ---------------------------------------------------------------------------
  // LessThan and GreaterThan

  function Less(a: real, b: real): bool { a < b }

  function Greater(a: real, b: real): bool { a > b }

  /** std::ranges::is_sorted(vals, comp): no adjacent pair has comp(later, earlier). */
  function IsSorted(vals: seq<real>, comp: (real, real) -> bool): bool
    decreases |vals|
  {
    |vals| < 2 || (!comp(vals[1], vals[0]) && IsSorted(vals[1..], comp))
  }

  lemma {:induction false} IsSortedAdjacent(vals: seq<real>, comp: (real, real) -> bool)
    ensures IsSorted(vals, comp) <==> forall k :: 0 <= k < |vals| - 1 ==> !comp(vals[k + 1], vals[k])
    decreases |vals|
  {
    if |vals| >= 2 {
      IsSortedAdjacent(vals[1..], comp);
    }
  }

  /** LessThan: 1 if the inputs are non-decreasing, else 0 (lines 245-248). */
  function LessThan(vals: seq<real>): real
  {
    if IsSorted(vals, Less) then 1.0 else 0.0
  }

  /** GreaterThan: 1 if the inputs are non-increasing, else 0 (lines 253-256). */
  function GreaterThan(vals: seq<real>): real
  {
    if IsSorted(vals, Greater) then 1.0 else 0.0
  }

  lemma {:induction false} NonDecreasingPairwise(vals: seq<real>)
    requires forall k :: 0 <= k < |vals| - 1 ==> vals[k] <= vals[k + 1]
    ensures forall i, j :: 0 <= i < j < |vals| ==> vals[i] <= vals[j]
    decreases |vals|
  {
    if |vals| >= 2 {
      var tail := vals[1..];
      assert forall k :: 0 <= k < |tail| ==> tail[k] == vals[k + 1];
      NonDecreasingPairwise(tail);
      forall i, j | 0 <= i < j < |vals| ensures vals[i] <= vals[j] {
        if i == 0 {
          if j > 1 {
            assert tail[0] <= tail[j - 1];
          }
        } else {
          assert tail[i - 1] <= tail[j - 1];
        }
      }
    }
  }

  lemma {:induction false} NonIncreasingPairwise(vals: seq<real>)
    requires forall k :: 0 <= k < |vals| - 1 ==> vals[k] >= vals[k + 1]
    ensures forall i, j :: 0 <= i < j < |vals| ==> vals[i] >= vals[j]
    decreases |vals|
  {
    if |vals| >= 2 {
      var tail := vals[1..];
      assert forall k :: 0 <= k < |tail| ==> tail[k] == vals[k + 1];
      NonIncreasingPairwise(tail);
      forall i, j | 0 <= i < j < |vals| ensures vals[i] >= vals[j] {
        if i == 0 {
          if j > 1 {
            assert tail[0] >= tail[j - 1];
          }
        } else {
          assert tail[i - 1] >= tail[j - 1];
        }
      }
    }
  }

  /** LessThan is 1 exactly for non-decreasing inputs (every earlier input <= every later one), and 0 otherwise. */
  lemma LessThanMeaning(vals: seq<real>)
    ensures LessThan(vals) == 1.0 <==> forall i, j :: 0 <= i < j < |vals| ==> vals[i] <= vals[j]
    ensures LessThan(vals) == 0.0 <==> exists i, j :: 0 <= i < j < |vals| && vals[j] < vals[i]
    ensures |vals| < 2 ==> LessThan(vals) == 1.0
  {
    IsSortedAdjacent(vals, Less);
    if forall k :: 0 <= k < |vals| - 1 ==> vals[k] <= vals[k + 1] {
      NonDecreasingPairwise(vals);
    } else {
      var k :| 0 <= k < |vals| - 1 && vals[k + 1] < vals[k];
      assert !(vals[k] <= vals[k + 1]);
    }
  }

  /** GreaterThan is 1 exactly for non-increasing inputs, and 0 otherwise. */
  lemma GreaterThanMeaning(vals: seq<real>)
    ensures GreaterThan(vals) == 1.0 <==> forall i, j :: 0 <= i < j < |vals| ==> vals[i] >= vals[j]
    ensures GreaterThan(vals) == 0.0 <==> exists i, j :: 0 <= i < j < |vals| && vals[j] > vals[i]
    ensures |vals| < 2 ==> GreaterThan(vals) == 1.0
  {
    IsSortedAdjacent(vals, Greater);
    if forall k :: 0 <= k < |vals| - 1 ==> vals[k] >= vals[k + 1] {
      NonIncreasingPairwise(vals);
    } else {
      var k :| 0 <= k < |vals| - 1 && vals[k + 1] > vals[k];
      assert !(vals[k] >= vals[k + 1]);
    }
  }

  // ---------------------------------------------------------------------------
  // Max and Min

  /** std::max_element: keeps the first largest input. */
  function MaxElement(vals: seq<real>): (m: real)
    requires |vals| > 0
    ensures m in vals
    ensures forall k :: 0 <= k < |vals| ==> vals[k] <= m
    decreases |vals|
  {
    if |vals| == 1 then vals[0]
    else
      var m := MaxElement(vals[..|vals| - 1]);
      if m < vals[|vals| - 1] then vals[|vals| - 1] else m
  }

  /** std::min_element: keeps the first smallest input. */
  function MinElement(vals: seq<real>): (m: real)
    requires |vals| > 0
    ensures m in vals
    ensures forall k :: 0 <= k < |vals| ==> m <= vals[k]
    decreases |vals|
  {
    if |vals| == 1 then vals[0]
    else
      var m := MinElement(vals[..|vals| - 1]);
      if vals[|vals| - 1] < m then vals[|vals| - 1] else m
  }

  /** Max: the default without inputs, otherwise the largest input (lines 261-266). */
  function Max(vals: seq<real>, default: real): (r: real)
    ensures |vals| == 0 ==> r == default
    ensures |vals| > 0 ==> r in vals && forall k :: 0 <= k < |vals| ==> vals[k] <= r
  {
    if |vals| == 0 then default else MaxElement(vals)
  }

  /** Min: the default without inputs, otherwise the smallest input (lines 271-276). */
  function Min(vals: seq<real>, default: real): (r: real)
    ensures |vals| == 0 ==> r == default
    ensures |vals| > 0 ==> r in vals && forall k :: 0 <= k < |vals| ==> r <= vals[k]
  {
    if |vals| == 0 then default else MinElement(vals)
  }
}
