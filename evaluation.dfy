/**
 * The state of a decision graph as values, and what evaluating it means.
 *
 * A graph is an arena: node `i` is `g[i]`, and its memo cell is `c[i]`, kept
 * apart from the node as the interior-mutable cache of GraphNode
 * (cached_output, cached_output_valid). Edges are indices into the arena.
 * Acyclicity is the arena order: a node's inputs come before it and its
 * output back-references come after it.
 */
module Evaluation {
  import opened Wrappers
  import opened Operators
  import opened FunctionTable

  /** The structural fields of a GraphNode: inputs, outputs (back-references), function pointer, default output. */
  datatype Node = Node(inputs: seq<nat>, outputs: seq<nat>, op: Option<Op>, defaultOutput: real)

  /** The memo cell of a GraphNode: cached_output and cached_output_valid. */
  datatype Cache = Cache(output: real, valid: bool)

  predicate Acyclic(g: seq<Node>)
  {
    && (forall j, k :: 0 <= j < |g| && 0 <= k < |g[j].inputs| ==> g[j].inputs[k] < j)
    && (forall j, k :: 0 <= j < |g| && 0 <= k < |g[j].outputs| ==> j < g[j].outputs[k] < |g|)
  }

  predicate WellFormed(g: seq<Node>, c: seq<Cache>)
  {
    |c| == |g| && Acyclic(g)
  }

  // ---------------------------------------------------------------------------
  // Evaluation through the caches

  /**
   * What GetOutput() of node `i` returns in state (g, c): the cached output
   * when the cache is valid, otherwise the operator applied to the inputs'
   * values (obtained the same way), or the default when there is no operator.
   */
  ghost function Eval(g: seq<Node>, c: seq<Cache>, i: nat, libm: Libm): real
    requires WellFormed(g, c) && i < |g|
    decreases i, 1
  {
    if c[i].valid then c[i].output
    else match g[i].op
      case None => g[i].defaultOutput
      case Some(op) => Apply(op, InputValues(g, c, i, libm), g[i].defaultOutput, libm)
  }

  /** What GetInputValues() of node `i` returns: the inputs' outputs, in input order. */
  ghost function InputValues(g: seq<Node>, c: seq<Cache>, i: nat, libm: Libm): seq<real>
    requires WellFormed(g, c) && i < |g|
    decreases i, 0
  {
    seq(|g[i].inputs|, k requires 0 <= k < |g[i].inputs| => Eval(g, c, g[i].inputs[k], libm))
  }

  /** The cache of nodes that have never been evaluated (cached_output{0}, cached_output_valid{false}). */
  function Cold(n: nat): (c: seq<Cache>)
    ensures |c| == n && forall k :: 0 <= k < n ==> !c[k].valid
  {
    seq(n, k => Cache(0.0, false))
  }

  /** The value node `i` has when nothing is cached: the output a full re-evaluation would produce. */
  ghost function Fresh(g: seq<Node>, i: nat, libm: Libm): real
    requires Acyclic(g) && i < |g|
  {
    Eval(g, Cold(|g|), i, libm)
  }

  /**
   * `c'` is `c` after some evaluation: every entry is either unchanged, or
   * was invalid and now validly holds the value the node had in `c`.
   */
  ghost predicate Refines(g: seq<Node>, c: seq<Cache>, c': seq<Cache>, libm: Libm)
  {
    && WellFormed(g, c)
    && |c'| == |c|
    && forall k :: 0 <= k < |c| ==>
         c'[k] == c[k] || (!c[k].valid && c'[k] == Cache(Eval(g, c, k, libm), true))
  }

  /** Node `a` feeds node `b`: it is `b` itself or feeds one of `b`'s inputs, so evaluating `b` may pull it. */
  ghost predicate Feeds(g: seq<Node>, a: nat, b: nat)
    decreases b
  {
    a == b || (b < |g| && exists k :: 0 <= k < |g[b].inputs| && g[b].inputs[k] < b && Feeds(g, a, g[b].inputs[k]))
  }

  /** Filling in caches the way evaluation does never changes what any node evaluates to. */
  lemma {:induction false} RefinesKeepsEval(g: seq<Node>, c: seq<Cache>, c': seq<Cache>, k: nat, libm: Libm)
    requires Refines(g, c, c', libm) && k < |g|
    ensures WellFormed(g, c') && Eval(g, c', k, libm) == Eval(g, c, k, libm)
    decreases k
  {
    if c'[k] == c[k] && !c[k].valid {
      var ins := g[k].inputs;
      forall m | 0 <= m < |ins|
        ensures Eval(g, c', ins[m], libm) == Eval(g, c, ins[m], libm)
      {
        RefinesKeepsEval(g, c, c', ins[m], libm);
      }
      assert InputValues(g, c', k, libm) == InputValues(g, c, k, libm);
    }
  }

  lemma RefinesReflexive(g: seq<Node>, c: seq<Cache>, libm: Libm)
    requires WellFormed(g, c)
    ensures Refines(g, c, c, libm)
  {
  }

  lemma RefinesTransitive(g: seq<Node>, c: seq<Cache>, c': seq<Cache>, c'': seq<Cache>, libm: Libm)
    requires Refines(g, c, c', libm) && Refines(g, c', c'', libm)
    ensures Refines(g, c, c'', libm)
  {
    forall k | 0 <= k < |c|
      ensures c''[k] == c[k] || (!c[k].valid && c''[k] == Cache(Eval(g, c, k, libm), true))
    {
      RefinesKeepsEval(g, c, c', k, libm);
    }
  }

  // ---------------------------------------------------------------------------
  // Invalidation through output back-references

  /** Node `b` is `a` or is reachable from `a` through output back-references. */
  ghost predicate Reaches(g: seq<Node>, a: nat, b: nat)
    decreases |g| - a
  {
    a == b ||
    (a < |g| && exists m :: 0 <= m < |g[a].outputs| && a < g[a].outputs[m] < |g| && Reaches(g, g[a].outputs[m], b))
  }

  lemma {:induction false} ReachesStep(g: seq<Node>, a: nat, n: nat, m: nat)
    requires Acyclic(g) && a <= n < |g| && m < |g[n].outputs| && Reaches(g, a, n)
    ensures Reaches(g, a, g[n].outputs[m])
    decreases |g| - a
  {
    if a == n {
      assert Reaches(g, g[n].outputs[m], g[n].outputs[m]);
    } else {
      var p :| 0 <= p < |g[a].outputs| && a < g[a].outputs[p] < |g| && Reaches(g, g[a].outputs[p], n);
      ReachesUpward(g, g[a].outputs[p], n);
      ReachesStep(g, g[a].outputs[p], n, m);
    }
  }

  /** A node reaches only itself and nodes after it. */
  lemma {:induction false} ReachesUpward(g: seq<Node>, a: nat, b: nat)
    requires Reaches(g, a, b)
    ensures a <= b
    decreases |g| - a
  {
    if a != b {
      var p :| 0 <= p < |g[a].outputs| && a < g[a].outputs[p] < |g| && Reaches(g, g[a].outputs[p], b);
      ReachesUpward(g, g[a].outputs[p], b);
    }
  }

  /** The caches after RecursiveInvalidateCache() on node `j`: every node `j` reaches loses its validity flag. */
  ghost function Invalidated(g: seq<Node>, c: seq<Cache>, j: nat): (c': seq<Cache>)
    ensures |c'| == |c|
  {
    seq(|c|, k requires 0 <= k < |c| => if Reaches(g, j, k) then c[k].(valid := false) else c[k])
  }

  // ---------------------------------------------------------------------------
  // Cache coherence

  /** Every input edge is mirrored by a back-reference: a node appears in the outputs of each of its inputs. */
  ghost predicate Linked(g: seq<Node>)
  {
    forall j, k :: 0 <= j < |g| && 0 <= k < |g[j].inputs| && g[j].inputs[k] < |g| ==> j in g[g[j].inputs[k]].outputs
  }

  /** Every valid cache holds the value a full re-evaluation would produce. */
  ghost predicate Coherent(g: seq<Node>, c: seq<Cache>, libm: Libm)
  {
    WellFormed(g, c) && forall k :: 0 <= k < |g| && c[k].valid ==> c[k].output == Fresh(g, k, libm)
  }

  /** In a coherent state, evaluating through the caches gives the re-evaluated value. */
  lemma {:induction false} CoherentEval(g: seq<Node>, c: seq<Cache>, k: nat, libm: Libm)
    requires Coherent(g, c, libm) && k < |g|
    ensures Eval(g, c, k, libm) == Fresh(g, k, libm)
    decreases k
  {
    if !c[k].valid {
      var ins := g[k].inputs;
      forall m | 0 <= m < |ins|
        ensures Eval(g, c, ins[m], libm) == Eval(g, Cold(|g|), ins[m], libm)
      {
        CoherentEval(g, c, ins[m], libm);
      }
      assert InputValues(g, c, k, libm) == InputValues(g, Cold(|g|), k, libm);
    }
  }

  /** Evaluation (GetOutput) keeps a coherent state coherent. */
  lemma RefinesKeepsCoherent(g: seq<Node>, c: seq<Cache>, c': seq<Cache>, libm: Libm)
    requires Coherent(g, c, libm) && Refines(g, c, c', libm)
    ensures Coherent(g, c', libm)
  {
    forall k | 0 <= k < |g| && c'[k].valid
      ensures c'[k].output == Fresh(g, k, libm)
    {
      if c'[k] != c[k] {
        CoherentEval(g, c, k, libm);
      }
    }
  }

  /** Invalidating more caches keeps a coherent state coherent. */
  lemma InvalidatedKeepsCoherent(g: seq<Node>, c: seq<Cache>, j: nat, libm: Libm)
    requires Coherent(g, c, libm)
    ensures Coherent(g, Invalidated(g, c, j), libm)
  {
  }

  /** `g'` is `g` with at most node `j` changed in its inputs, function pointer or default. */
  ghost predicate SameExcept(g: seq<Node>, g': seq<Node>, j: nat)
  {
    |g'| == |g| &&
    forall m :: 0 <= m < |g| && m != j ==>
      g'[m].inputs == g[m].inputs && g'[m].op == g[m].op && g'[m].defaultOutput == g[m].defaultOutput
  }

  /** A node that the edited node `j` does not reach through back-references keeps its value. */
  lemma {:induction false} UnreachedKeepsFresh(g: seq<Node>, g': seq<Node>, j: nat, k: nat, libm: Libm)
    requires Acyclic(g) && Acyclic(g') && Linked(g') && SameExcept(g, g', j)
    requires k < |g| && !Reaches(g', j, k)
    ensures Fresh(g', k, libm) == Fresh(g, k, libm)
    decreases k
  {
    var ins := g[k].inputs;
    assert g'[k].inputs == ins;
    forall m | 0 <= m < |ins|
      ensures Eval(g', Cold(|g'|), ins[m], libm) == Eval(g, Cold(|g|), ins[m], libm)
    {
      var n := ins[m];
      if Reaches(g', j, n) {
        assert k in g'[n].outputs;
        var q :| 0 <= q < |g'[n].outputs| && g'[n].outputs[q] == k;
        ReachesUpward(g', j, n);
        ReachesStep(g', j, n, q);
        assert false;
      }
      UnreachedKeepsFresh(g, g', j, n, libm);
    }
    assert InputValues(g', Cold(|g'|), k, libm) == InputValues(g, Cold(|g|), k, libm);
  }

  /**
   * The cache-coherence argument for mutators: editing node `j` and then
   * invalidating everything `j` reaches keeps a coherent state coherent,
   * provided every input edge of the edited graph has its back-reference.
   */
  lemma EditKeepsCoherent(g: seq<Node>, g': seq<Node>, c: seq<Cache>, j: nat, libm: Libm)
    requires Coherent(g, c, libm) && Acyclic(g') && Linked(g') && SameExcept(g, g', j)
    ensures Coherent(g', Invalidated(g', c, j), libm)
  {
    var c' := Invalidated(g', c, j);
    forall k | 0 <= k < |g'| && c'[k].valid
      ensures c'[k].output == Fresh(g', k, libm)
    {
      UnreachedKeepsFresh(g, g', j, k, libm);
    }
  }

  /** Appending a node to the arena changes no existing node's value. */
  lemma {:induction false} ExtendKeepsEval(g: seq<Node>, c: seq<Cache>, x: Node, y: Cache, k: nat, libm: Libm)
    requires WellFormed(g, c) && WellFormed(g + [x], c + [y]) && k < |g|
    ensures Eval(g + [x], c + [y], k, libm) == Eval(g, c, k, libm)
    decreases k
  {
    var ins := g[k].inputs;
    assert (g + [x])[k] == g[k] && (c + [y])[k] == c[k];
    forall m | 0 <= m < |ins|
      ensures Eval(g + [x], c + [y], ins[m], libm) == Eval(g, c, ins[m], libm)
    {
      ExtendKeepsEval(g, c, x, y, ins[m], libm);
    }
    assert InputValues(g + [x], c + [y], k, libm) == InputValues(g, c, k, libm);
  }

  /** Adding a fresh constant or operator node keeps a coherent state coherent. */
  lemma ExtendKeepsCoherent(g: seq<Node>, c: seq<Cache>, x: Node, libm: Libm)
    requires Coherent(g, c, libm) && WellFormed(g + [x], c + [Cache(0.0, false)])
    ensures Coherent(g + [x], c + [Cache(0.0, false)], libm)
  {
    assert Cold(|g + [x]|) == Cold(|g|) + [Cache(0.0, false)];
    forall k | 0 <= k < |g|
      ensures Fresh(g + [x], k, libm) == Fresh(g, k, libm)
    {
      ExtendKeepsEval(g, Cold(|g|), x, Cache(0.0, false), k, libm);
    }
  }
}
