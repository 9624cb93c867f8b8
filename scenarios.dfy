/**
 * Client scenarios over the decision graph: a sensor node feeding a Sum
 * node, a chain of Sum nodes, a node evaluation does not pull, and the same
 * wiring done with SetInputs, whose missing back-references leave a stale
 * cache behind.
 */
module Scenarios {
  import opened Wrappers
  import opened Operators
  import opened FunctionTable
  import opened Evaluation
  import opened DecisionGraph

  /** Node 2 sums the constant nodes 0 and 1. */
  ghost predicate SumOfConstants(g: seq<Node>)
  {
    && |g| == 3 && Acyclic(g)
    && g[0].inputs == [] && g[0].op == None
    && g[1].inputs == [] && g[1].op == None
    && g[2].inputs == [0, 1] && g[2].op == Some(Sum)
  }

  lemma SumOfConstantsFresh(g: seq<Node>, libm: Libm)
    requires SumOfConstants(g)
    ensures Fresh(g, 2, libm) == g[0].defaultOutput + g[1].defaultOutput
  {
    var c := Cold(3);
    assert Eval(g, c, 0, libm) == g[0].defaultOutput;
    assert Eval(g, c, 1, libm) == g[1].defaultOutput;
    var vals := InputValues(g, c, 2, libm);
    assert vals == [g[0].defaultOutput, g[1].defaultOutput];
    assert vals[..1] == [g[0].defaultOutput] && vals[..1][..0] == [];
    assert Operators.Sum(vals[..1]) == Operators.Sum(vals[..1][..0]) + vals[0];
    assert Operators.Sum(vals) == Operators.Sum(vals[..1]) + vals[1];
    assert Fresh(g, 2, libm) == Operators.Sum(vals);
  }

  /** A(x) and B(y) as inputs of C = Sum, wired with AddInput. */
  method BuildLinked(libm: Libm, x: real, y: real) returns (g: Graph)
    ensures fresh(g) && g.Valid() && g.libm == libm
    ensures SumOfConstants(g.nodes) && g.nodes[0].defaultOutput == x && g.nodes[1].defaultOutput == y
    ensures g.nodes[0].outputs == [2]
    ensures Linked(g.nodes) && Coherent(g.nodes, g.cache, libm)
  {
    g := new Graph(libm);
    assert Linked(g.nodes) && Coherent(g.nodes, g.cache, libm);
    var a := g.AddNode(x, None);
    var b := g.AddNode(y, None);
    var c := g.AddNode(0.0, Some(Sum));
    g.AddInput(c, a);
    assert g.nodes[2].inputs == [] + [0];
    g.AddInput(c, b);
    assert g.nodes[2].inputs == [0] + [1];
    assert g.nodes[0].outputs == [] + [2];
  }

  /**
   * A(2) and B(5) wired into C = Sum with AddInput: C evaluates to 7; after
   * A's default becomes 10, C's cache is invalid and C evaluates to 15.
   */
  method SumOfTwoSensors(libm: Libm) returns (first: real, validAfterEdit: bool, second: real)
    ensures first == 7.0 && !validAfterEdit && second == 15.0
  {
    var g := BuildLinked(libm, 2.0, 5.0);
    first := g.GetOutput(2);
    SumOfConstantsFresh(g.nodes, libm);
    g.SetDefaultOutput(0, 10.0);
    assert Reaches(g.nodes, 0, 2) by {
      assert Reaches(g.nodes, g.nodes[0].outputs[0], 2);
    }
    validAfterEdit := g.IsCacheValid(2);
    second := g.GetOutput(2);
    SumOfConstantsFresh(g.nodes, libm);
  }

  /** Node k + 1 sums node k, for k < 3, and node 0 is a constant. */
  ghost predicate SumChain(g: seq<Node>)
  {
    && |g| == 4 && Acyclic(g)
    && g[0].inputs == [] && g[0].op == None
    && g[1].inputs == [0] && g[1].op == Some(Sum)
    && g[2].inputs == [1] && g[2].op == Some(Sum)
    && g[3].inputs == [2] && g[3].op == Some(Sum)
  }

  lemma SumChainFresh(g: seq<Node>, libm: Libm)
    requires SumChain(g)
    ensures Fresh(g, 3, libm) == g[0].defaultOutput
  {
    SumOfPrevious(g, 3, libm);
    SumOfPrevious(g, 2, libm);
    SumOfPrevious(g, 1, libm);
    assert Fresh(g, 0, libm) == g[0].defaultOutput;
  }

  lemma SumOfPrevious(g: seq<Node>, k: nat, libm: Libm)
    requires Acyclic(g) && 1 <= k < |g| && g[k].inputs == [k - 1] && g[k].op == Some(Sum)
    ensures Fresh(g, k, libm) == Fresh(g, k - 1, libm)
  {
    var vals := InputValues(g, Cold(|g|), k, libm);
    assert vals == [Fresh(g, k - 1, libm)];
    assert vals[..0] == [];
    assert Operators.Sum(vals) == Operators.Sum(vals[..0]) + vals[0];
    assert Fresh(g, k, libm) == Operators.Sum(vals);
  }

  /** The chain A(x) -> B -> C -> D of Sum nodes, wired with AddInput. */
  method BuildChain(libm: Libm, x: real) returns (g: Graph)
    ensures fresh(g) && g.Valid() && g.libm == libm
    ensures SumChain(g.nodes) && g.nodes[0].defaultOutput == x
    ensures g.nodes[0].outputs == [1] && g.nodes[1].outputs == [2] && g.nodes[2].outputs == [3]
    ensures Linked(g.nodes) && Coherent(g.nodes, g.cache, libm)
  {
    g := new Graph(libm);
    assert Linked(g.nodes) && Coherent(g.nodes, g.cache, libm);
    var a := g.AddNode(x, None);
    var b := g.AddNode(0.0, Some(Sum));
    var c := g.AddNode(0.0, Some(Sum));
    var d := g.AddNode(0.0, Some(Sum));
    g.AddInput(b, a);
    g.AddInput(c, b);
    g.AddInput(d, c);
    assert g.nodes[1].inputs == [] + [0] && g.nodes[2].inputs == [] + [1] && g.nodes[3].inputs == [] + [2];
    assert g.nodes[0].outputs == [] + [1] && g.nodes[1].outputs == [] + [2] && g.nodes[2].outputs == [] + [3];
  }

  /**
   * The chain A(1) -> B -> C -> D of Sum nodes: after D is evaluated and A's
   * default becomes 4, B, C and D are all invalid, and evaluating D alone
   * pulls the new value through the chain.
   */
  method Chain(libm: Libm) returns (first: real, validB: bool, validC: bool, validD: bool, second: real)
    ensures first == 1.0 && !validB && !validC && !validD && second == 4.0
  {
    var g := BuildChain(libm, 1.0);
    first := g.GetOutput(3);
    SumChainFresh(g.nodes, libm);
    g.SetDefaultOutput(0, 4.0);
    ghost var n := g.nodes;
    assert Reaches(n, 2, 3) by { assert Reaches(n, n[2].outputs[0], 3); }
    assert Reaches(n, 1, 3) by { assert Reaches(n, n[1].outputs[0], 3); }
    assert Reaches(n, 0, 3) by { assert Reaches(n, n[0].outputs[0], 3); }
    assert Reaches(n, 1, 2) by { assert Reaches(n, n[1].outputs[0], 2); }
    assert Reaches(n, 0, 2) by { assert Reaches(n, n[0].outputs[0], 2); }
    assert Reaches(n, 0, 1) by { assert Reaches(n, n[0].outputs[0], 1); }
    validB := g.IsCacheValid(1);
    validC := g.IsCacheValid(2);
    validD := g.IsCacheValid(3);
    second := g.GetOutput(3);
    SumChainFresh(g.nodes, libm);
  }

  /**
   * The two-sensor graph wired with SetInputs as written: A does not learn
   * that C depends on it, so after A's default becomes 10 C's cache stays
   * valid and C still yields 7, although re-evaluation gives 15.
   */
  method StaleAfterSetInputs(libm: Libm) returns (first: real, validAfterEdit: bool, second: real, ghost reevaluated: real)
    ensures first == 7.0 && validAfterEdit && second == 7.0 && reevaluated == 15.0
  {
    var g := new Graph(libm);
    var a := g.AddNode(2.0, None);
    var b := g.AddNode(5.0, None);
    var c := g.AddNode(0.0, Some(Sum));
    g.SetInputs(c, [a, b]);
    assert SumOfConstants(g.nodes) && g.nodes[0].outputs == [];
    assert Coherent(g.nodes, g.cache, libm);
    first := g.GetOutput(c);
    SumOfConstantsFresh(g.nodes, libm);
    g.SetDefaultOutput(a, 10.0);
    assert !Reaches(g.nodes, 0, 2);
    validAfterEdit := g.IsCacheValid(c);
    second := g.GetOutput(c);
    reevaluated := Fresh(g.nodes, 2, libm);
    SumOfConstantsFresh(g.nodes, libm);
  }

  /** The same wiring with SetInputsLinked: the edit of A invalidates C, which then yields 15. */
  method FixedSetInputs(libm: Libm) returns (first: real, validAfterEdit: bool, second: real)
    ensures first == 7.0 && !validAfterEdit && second == 15.0
  {
    var g := new Graph(libm);
    assert Linked(g.nodes) && Coherent(g.nodes, g.cache, libm);
    var a := g.AddNode(2.0, None);
    var b := g.AddNode(5.0, None);
    var c := g.AddNode(0.0, Some(Sum));
    g.SetInputsLinked(c, [a, b]);
    assert [a, b][0] == 0;
    assert SumOfConstants(g.nodes) && 2 in g.nodes[0].outputs;
    first := g.GetOutput(c);
    SumOfConstantsFresh(g.nodes, libm);
    g.SetDefaultOutput(a, 10.0);
    ghost var n := g.nodes;
    assert Reaches(n, 0, 2) by {
      var q :| 0 <= q < |n[0].outputs| && n[0].outputs[q] == 2;
      assert Reaches(n, n[0].outputs[q], 2);
    }
    validAfterEdit := g.IsCacheValid(c);
    second := g.GetOutput(c);
    SumOfConstantsFresh(g.nodes, libm);
  }

  /**
   * The two-sensor graph wired with AddInputs as written: as with SetInputs,
   * C's cache survives the edit of A and C still yields 7 instead of 15.
   */
  method StaleAfterAddInputs(libm: Libm) returns (first: real, validAfterEdit: bool, second: real, ghost reevaluated: real)
    ensures first == 7.0 && validAfterEdit && second == 7.0 && reevaluated == 15.0
  {
    var g := new Graph(libm);
    var a := g.AddNode(2.0, None);
    var b := g.AddNode(5.0, None);
    var c := g.AddNode(0.0, Some(Sum));
    g.AddInputs(c, [a, b]);
    assert g.nodes[2].inputs == [] + [0, 1];
    assert SumOfConstants(g.nodes) && g.nodes[0].outputs == [];
    assert Coherent(g.nodes, g.cache, libm);
    first := g.GetOutput(c);
    SumOfConstantsFresh(g.nodes, libm);
    g.SetDefaultOutput(a, 10.0);
    assert !Reaches(g.nodes, 0, 2);
    validAfterEdit := g.IsCacheValid(c);
    second := g.GetOutput(c);
    reevaluated := Fresh(g.nodes, 2, libm);
    SumOfConstantsFresh(g.nodes, libm);
  }

  /** The same wiring with AddInputsLinked: the edit of A invalidates C, which then yields 15. */
  method FixedAddInputs(libm: Libm) returns (first: real, validAfterEdit: bool, second: real)
    ensures first == 7.0 && !validAfterEdit && second == 15.0
  {
    var g := new Graph(libm);
    assert Linked(g.nodes) && Coherent(g.nodes, g.cache, libm);
    var a := g.AddNode(2.0, None);
    var b := g.AddNode(5.0, None);
    var c := g.AddNode(0.0, Some(Sum));
    g.AddInputsLinked(c, [a, b]);
    assert [a, b][0] == 0;
    assert g.nodes[2].inputs == [] + [0, 1];
    assert SumOfConstants(g.nodes) && 2 in g.nodes[0].outputs;
    first := g.GetOutput(c);
    SumOfConstantsFresh(g.nodes, libm);
    g.SetDefaultOutput(a, 10.0);
    ghost var n := g.nodes;
    assert Reaches(n, 0, 2) by {
      var q :| 0 <= q < |n[0].outputs| && n[0].outputs[q] == 2;
      assert Reaches(n, n[0].outputs[q], 2);
    }
    validAfterEdit := g.IsCacheValid(c);
    second := g.GetOutput(c);
    SumOfConstantsFresh(g.nodes, libm);
  }

  /**
   * A(1), B(2) and C = Sum with B as its only input: evaluating C yields 2
   * and leaves A's cache invalid, since A does not feed C.
   */
  method UnrelatedCacheUntouched(libm: Libm) returns (value: real, validA: bool)
    ensures value == 2.0 && !validA
  {
    var g := new Graph(libm);
    assert Linked(g.nodes) && Coherent(g.nodes, g.cache, libm);
    var a := g.AddNode(1.0, None);
    var b := g.AddNode(2.0, None);
    var c := g.AddNode(0.0, Some(Sum));
    g.AddInput(c, b);
    assert g.nodes[2].inputs == [] + [1];
    assert !g.cache[0].valid;
    assert !Feeds(g.nodes, 0, 2) by {
      assert !Feeds(g.nodes, 0, 1);
    }
    value := g.GetOutput(2);
    SumOfPrevious(g.nodes, 2, libm);
    assert Fresh(g.nodes, 1, libm) == 2.0;
    validA := g.IsCacheValid(0);
  }
}
