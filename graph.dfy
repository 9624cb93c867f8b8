/**
 * The decision graph as an arena of GraphNodes (GraphNode.hpp, lines 17-153).
 *
 * Node `i` of the arena is one GraphNode: `nodes[i]` holds its inputs, its
 * output back-references, its function pointer and its default output, and
 * `cache[i]` holds its memo cell. Every method takes the index of the node
 * it is called on. Callers keep the graph acyclic: a new input edge must
 * come from an earlier node.
 */
module DecisionGraph {
  import opened Wrappers
  import opened Operators
  import opened FunctionTable
  import opened Evaluation

  class Graph {
    var nodes: seq<Node>
    var cache: seq<Cache>
    /** The libm functions behind Sin, Cos, Exp and Sqrt. */
    const libm: Libm

    ghost predicate Valid()
      reads this
    {
      WellFormed(nodes, cache)
    }

    constructor (libm: Libm)
      ensures Valid() && nodes == [] && cache == [] && this.libm == libm
    {
      nodes := [];
      cache := [];
      this.libm := libm;
    }

    /**
     * A new GraphNode: GraphNode() is AddNode(0.0, None), GraphNode(v) is
     * AddNode(v, None) and GraphNode(f) is AddNode(0.0, Some(f)).
     */
    method AddNode(defaultOutput: real, op: Option<Op>) returns (id: nat)
      requires Valid()
      modifies this
      ensures Valid() && id == |old(nodes)|
      ensures nodes == old(nodes) + [Node([], [], op, defaultOutput)]
      ensures cache == old(cache) + [Cache(0.0, false)]
      ensures Linked(old(nodes)) ==> Linked(nodes)
      ensures Coherent(old(nodes), old(cache), libm) ==> Coherent(nodes, cache, libm)
    {
      id := |nodes|;
      ghost var g, c := nodes, cache;
      nodes := nodes + [Node([], [], op, defaultOutput)];
      cache := cache + [Cache(0.0, false)];
      if Coherent(g, c, libm) {
        ExtendKeepsCoherent(g, c, Node([], [], op, defaultOutput), libm);
      }
    }

    // -------------------------------------------------------------------------
    // Evaluation

    /** GetOutput(): the memoised output of node `i` (lines 65-80). */
    method GetOutput(i: nat) returns (r: real)
      requires Valid() && i < |nodes|
      modifies this`cache
      ensures Valid()
      ensures r == Eval(nodes, old(cache), i, libm)
      ensures old(cache)[i].valid ==> r == old(cache)[i].output && cache == old(cache)
      ensures !old(cache)[i].valid && nodes[i].op.None? ==> r == nodes[i].defaultOutput
      ensures !old(cache)[i].valid && nodes[i].op.Some? ==>
        r == Apply(nodes[i].op.value, InputValues(nodes, old(cache), i, libm), nodes[i].defaultOutput, libm)
      ensures cache[i] == Cache(r, true)
      ensures Refines(nodes, old(cache), cache, libm)
      ensures forall k :: i < k < |cache| ==> cache[k] == old(cache)[k]
      ensures forall q :: 0 <= q < |cache| && !Feeds(nodes, q, i) ==> cache[q] == old(cache)[q]
      ensures Coherent(nodes, old(cache), libm) ==> Coherent(nodes, cache, libm) && r == Fresh(nodes, i, libm)
      decreases i, 2
    {
      if cache[i].valid {
        RefinesReflexive(nodes, cache, libm);
        if Coherent(nodes, cache, libm) {
          CoherentEval(nodes, cache, i, libm);
        }
        return cache[i].output;
      }
      ghost var c0 := cache;
      var result := nodes[i].defaultOutput;
      if nodes[i].op.Some? {
        result := Invoke(i);
      } else {
        RefinesReflexive(nodes, cache, libm);
      }
      ghost var c1 := cache;
      RefinesKeepsEval(nodes, c0, c1, i, libm);
      cache := cache[i := Cache(result, true)];
      assert Refines(nodes, c1, cache, libm);
      RefinesTransitive(nodes, c0, c1, cache, libm);
      if Coherent(nodes, c0, libm) {
        RefinesKeepsCoherent(nodes, c0, cache, libm);
        CoherentEval(nodes, c0, i, libm);
      }
      r := result;
    }

    /** function_pointer(*this): runs the operator of node `i`, pulling only the input values it asks for. */
    method Invoke(i: nat) returns (r: real)
      requires Valid() && i < |nodes| && nodes[i].op.Some?
      modifies this`cache
      ensures Valid()
      ensures r == Apply(nodes[i].op.value, InputValues(nodes, old(cache), i, libm), nodes[i].defaultOutput, libm)
      ensures Refines(nodes, old(cache), cache, libm)
      ensures forall k :: i <= k < |cache| ==> cache[k] == old(cache)[k]
      ensures forall q :: 0 <= q < |cache| && !Feeds(nodes, q, i) ==> cache[q] == old(cache)[q]
      decreases i, 1
    {
      var d := nodes[i].defaultOutput;
      match nodes[i].op.value
      case Not =>
        var vals := GetInputValuesAt(i, [0]);
        r := match vals
          case None => d
          case Some(v) => if v[0] == 0.0 then 1.0 else 0.0;
      case Gate =>
        var vals := GetInputValuesAt(i, [0, 1]);
        r := match vals
          case None => d
          case Some(v) => if v[1] != 0.0 then v[0] else 0.0;
      case AnyEq =>
        var vals := GetInputValues(i);
        r := AnyEqScan(vals, d);
      case _ =>
        var vals := GetInputValues(i);
        r := Apply(nodes[i].op.value, vals, d, libm);
    }

    /** GetInputValues(): one output per input of node `i`, in input order (lines 84-90). */
    method GetInputValues(i: nat) returns (vals: seq<real>)
      requires Valid() && i < |nodes|
      modifies this`cache
      ensures Valid()
      ensures |vals| == |nodes[i].inputs|
      ensures forall k :: 0 <= k < |vals| ==> vals[k] == Eval(nodes, old(cache), nodes[i].inputs[k], libm)
      ensures vals == InputValues(nodes, old(cache), i, libm)
      ensures Refines(nodes, old(cache), cache, libm)
      ensures forall k :: i <= k < |cache| ==> cache[k] == old(cache)[k]
      ensures forall q :: 0 <= q < |cache| && !Feeds(nodes, q, i) ==> cache[q] == old(cache)[q]
      decreases i, 0
    {
      var ins := nodes[i].inputs;
      vals := [];
      RefinesReflexive(nodes, cache, libm);
      for k := 0 to |ins|
        invariant Valid()
        invariant |vals| == k
        invariant forall m :: 0 <= m < k ==> vals[m] == Eval(nodes, old(cache), ins[m], libm)
        invariant Refines(nodes, old(cache), cache, libm)
        invariant forall q :: i <= q < |cache| ==> cache[q] == old(cache)[q]
        invariant forall q :: 0 <= q < |cache| && !Feeds(nodes, q, i) ==> cache[q] == old(cache)[q]
      {
        ghost var before := cache;
        var v := GetOutput(ins[k]);
        forall q | 0 <= q < |cache| && Feeds(nodes, q, ins[k])
          ensures Feeds(nodes, q, i)
        {
          assert nodes[i].inputs[k] < i;
        }
        RefinesKeepsEval(nodes, old(cache), before, ins[k], libm);
        RefinesTransitive(nodes, old(cache), before, cache, libm);
        vals := vals + [v];
      }
    }

    /**
     * GetInputValues(indices): no value when some index is out of range,
     * otherwise the outputs of the inputs at `indices`, in that order
     * (lines 96-105). An empty `indices` has no largest element, which the
     * source dereferences, so it is excluded.
     */
    method GetInputValuesAt(i: nat, indices: seq<nat>) returns (vals: Option<seq<real>>)
      requires Valid() && i < |nodes| && |indices| > 0
      modifies this`cache
      ensures Valid()
      ensures vals.None? <==> exists k :: 0 <= k < |indices| && indices[k] >= |nodes[i].inputs|
      ensures vals.Some? ==> |vals.value| == |indices|
      ensures vals.Some? ==>
        forall k :: 0 <= k < |indices| ==> vals.value[k] == Eval(nodes, old(cache), nodes[i].inputs[indices[k]], libm)
      ensures vals == Select(InputValues(nodes, old(cache), i, libm), indices)
      ensures Refines(nodes, old(cache), cache, libm)
      ensures forall k :: i <= k < |cache| ==> cache[k] == old(cache)[k]
      ensures forall q :: 0 <= q < |cache| && !Feeds(nodes, q, i) ==> cache[q] == old(cache)[q]
      decreases i, 0
    {
      var ins := nodes[i].inputs;
      ghost var all := InputValues(nodes, cache, i, libm);
      var maxIndex := MaxIndex(indices);
      RefinesReflexive(nodes, cache, libm);
      if maxIndex >= |ins| {
        assert Select(all, indices).None?;
        return None;
      }
      var values := [];
      for k := 0 to |indices|
        invariant Valid()
        invariant |values| == k
        invariant forall m :: 0 <= m < k ==> values[m] == Eval(nodes, old(cache), ins[indices[m]], libm)
        invariant Refines(nodes, old(cache), cache, libm)
        invariant forall q :: i <= q < |cache| ==> cache[q] == old(cache)[q]
        invariant forall q :: 0 <= q < |cache| && !Feeds(nodes, q, i) ==> cache[q] == old(cache)[q]
      {
        ghost var before := cache;
        var v := GetOutput(ins[indices[k]]);
        forall q | 0 <= q < |cache| && Feeds(nodes, q, ins[indices[k]])
          ensures Feeds(nodes, q, i)
        {
          assert nodes[i].inputs[indices[k]] < i;
        }
        RefinesKeepsEval(nodes, old(cache), before, ins[indices[k]], libm);
        RefinesTransitive(nodes, old(cache), before, cache, libm);
        values := values + [v];
      }
      assert values == Select(all, indices).value;
      vals := Some(values);
    }

    // -------------------------------------------------------------------------
    // Invalidation

    /** AddOutput(node): records `node` as a dependent of node `j` (line 45). */
    method AddOutput(j: nat, node: nat)
      requires Valid() && j < node < |nodes|
      modifies this`nodes
      ensures Valid()
      ensures nodes == old(nodes)[j := old(nodes)[j].(outputs := old(nodes)[j].outputs + [node])]
    {
      nodes := nodes[j := nodes[j].(outputs := nodes[j].outputs + [node])];
    }

    /**
     * RecursiveInvalidateCache(): clears the validity flag of node `j` and of
     * every node reachable from it through outputs, and nothing else (lines 48-53).
     */
    method RecursiveInvalidateCache(j: nat)
      requires Valid() && j < |nodes|
      modifies this`cache
      ensures Valid()
      ensures cache == Invalidated(nodes, old(cache), j)
      ensures forall k :: 0 <= k < |cache| ==> cache[k].output == old(cache)[k].output
      ensures forall k :: 0 <= k < |cache| ==> (cache[k].valid <==> old(cache)[k].valid && !Reaches(nodes, j, k))
      decreases |nodes| - j
    {
      cache := cache[j := cache[j].(valid := false)];
      var outs := nodes[j].outputs;
      for m := 0 to |outs|
        invariant Valid()
        invariant forall k :: 0 <= k < |cache| ==>
          cache[k] == if k == j || exists p :: 0 <= p < m && Reaches(nodes, outs[p], k)
                      then old(cache)[k].(valid := false) else old(cache)[k]
      {
        RecursiveInvalidateCache(outs[m]);
      }
      assert forall k :: 0 <= k < |cache| ==> cache[k] == Invalidated(nodes, old(cache), j)[k];
    }

    // -------------------------------------------------------------------------
    // Mutators

    /** SetFunctionPointer(f): replaces the operator of node `j` and invalidates (lines 109-112). */
    method SetFunctionPointer(j: nat, op: Option<Op>)
      requires Valid() && j < |nodes|
      modifies this
      ensures Valid()
      ensures nodes == old(nodes)[j := old(nodes)[j].(op := op)]
      ensures cache == Invalidated(nodes, old(cache), j)
      ensures Linked(old(nodes)) ==> Linked(nodes)
      ensures Linked(old(nodes)) && Coherent(old(nodes), old(cache), libm) ==> Coherent(nodes, cache, libm)
    {
      ghost var g := nodes;
      nodes := nodes[j := nodes[j].(op := op)];
      RecursiveInvalidateCache(j);
      if Linked(g) && Coherent(g, old(cache), libm) {
        EditKeepsCoherent(g, nodes, old(cache), j, libm);
      }
    }

    /**
     * AddInput(node): appends `node` to the inputs of node `j`, registers `j`
     * among the outputs of `node`, and invalidates (lines 116-121).
     */
    method AddInput(j: nat, node: nat)
      requires Valid() && node < j < |nodes|
      modifies this
      ensures Valid()
      ensures nodes == old(nodes)
        [j := old(nodes)[j].(inputs := old(nodes)[j].inputs + [node])]
        [node := old(nodes)[node].(outputs := old(nodes)[node].outputs + [j])]
      ensures cache == Invalidated(nodes, old(cache), j)
      ensures Linked(old(nodes)) ==> Linked(nodes)
      ensures Linked(old(nodes)) && Coherent(old(nodes), old(cache), libm) ==> Coherent(nodes, cache, libm)
    {
      ghost var g := nodes;
      nodes := nodes[j := nodes[j].(inputs := nodes[j].inputs + [node])];
      AddOutput(node, j);
      RecursiveInvalidateCache(j);
      if Linked(g) {
        forall a, k | 0 <= a < |nodes| && 0 <= k < |nodes[a].inputs| && nodes[a].inputs[k] < |nodes|
          ensures a in nodes[nodes[a].inputs[k]].outputs
        {
          if a != j || k < |g[j].inputs| {
            assert nodes[a].inputs[k] == g[a].inputs[k];
            assert a in g[g[a].inputs[k]].outputs;
          }
        }
        if Coherent(g, old(cache), libm) {
          EditKeepsCoherent(g, nodes, old(cache), j, libm);
        }
      }
    }

    /**
     * AddInputs(nodes): appends `ns` to the inputs of node `j` and
     * invalidates, WITHOUT registering `j` among the outputs of the new
     * inputs (lines 125-128).
     */
    method AddInputs(j: nat, ns: seq<nat>)
      requires Valid() && j < |nodes| && forall k :: 0 <= k < |ns| ==> ns[k] < j
      modifies this
      ensures Valid()
      ensures nodes == old(nodes)[j := old(nodes)[j].(inputs := old(nodes)[j].inputs + ns)]
      ensures cache == Invalidated(nodes, old(cache), j)
    {
      nodes := nodes[j := nodes[j].(inputs := nodes[j].inputs + ns)];
      RecursiveInvalidateCache(j);
    }

    /**
     * SetInputs(nodes): replaces the inputs of node `j` by `ns` and
     * invalidates, neither registering `j` among the outputs of the new
     * inputs nor removing it from those of the old ones (lines 132-135).
     */
    method SetInputs(j: nat, ns: seq<nat>)
      requires Valid() && j < |nodes| && forall k :: 0 <= k < |ns| ==> ns[k] < j
      modifies this
      ensures Valid()
      ensures nodes == old(nodes)[j := old(nodes)[j].(inputs := ns)]
      ensures cache == Invalidated(nodes, old(cache), j)
    {
      nodes := nodes[j := nodes[j].(inputs := ns)];
      RecursiveInvalidateCache(j);
    }

    /**
     * SetDefaultOutput(v): a write of the current default changes nothing at
     * all; any other value is stored and invalidates (lines 139-144).
     */
    method SetDefaultOutput(j: nat, v: real)
      requires Valid() && j < |nodes|
      modifies this
      ensures Valid()
      ensures old(nodes)[j].defaultOutput == v ==> nodes == old(nodes) && cache == old(cache)
      ensures old(nodes)[j].defaultOutput != v ==>
        nodes == old(nodes)[j := old(nodes)[j].(defaultOutput := v)] && cache == Invalidated(nodes, old(cache), j)
      ensures Linked(old(nodes)) ==> Linked(nodes)
      ensures Linked(old(nodes)) && Coherent(old(nodes), old(cache), libm) ==> Coherent(nodes, cache, libm)
    {
      if nodes[j].defaultOutput != v {
        ghost var g := nodes;
        nodes := nodes[j := nodes[j].(defaultOutput := v)];
        RecursiveInvalidateCache(j);
        if Linked(g) && Coherent(g, old(cache), libm) {
          EditKeepsCoherent(g, nodes, old(cache), j, libm);
        }
      }
    }

    /** GetDefaultOutput() (line 148). */
    method GetDefaultOutput(j: nat) returns (d: real)
      requires Valid() && j < |nodes|
      ensures d == nodes[j].defaultOutput
    {
      d := nodes[j].defaultOutput;
    }

    /** IsCacheValid(): true means the next GetOutput() returns the cached output without recomputing (line 152). */
    method IsCacheValid(j: nat) returns (b: bool)
      requires Valid() && j < |nodes|
      ensures b == cache[j].valid
      ensures b ==> Eval(nodes, cache, j, libm) == cache[j].output
    {
      b := cache[j].valid;
    }

    // -------------------------------------------------------------------------
    // Corrected wiring

    /** AddInputs with the back-references that AddInput registers: keeps caches coherent. */
    method AddInputsLinked(j: nat, ns: seq<nat>)
      requires Valid() && j < |nodes| && forall k :: 0 <= k < |ns| ==> ns[k] < j
      modifies this
      ensures Valid()
      ensures |nodes| == |old(nodes)| && nodes[j].inputs == old(nodes)[j].inputs + ns
      ensures nodes[j].op == old(nodes)[j].op && nodes[j].defaultOutput == old(nodes)[j].defaultOutput
      ensures SameExcept(old(nodes), nodes, j)
      ensures forall m :: 0 <= m < |nodes| ==> old(nodes)[m].outputs <= nodes[m].outputs
      ensures forall m :: 0 <= m < |nodes| ==> nodes[m].outputs == old(nodes)[m].outputs + Copies(j, Count(ns, m))
      ensures forall k :: 0 <= k < |ns| ==> j in nodes[ns[k]].outputs
      ensures cache == Invalidated(nodes, old(cache), j)
      ensures Linked(old(nodes)) ==> Linked(nodes)
      ensures Linked(old(nodes)) && Coherent(old(nodes), old(cache), libm) ==> Coherent(nodes, cache, libm)
    {
      ghost var g := nodes;
      nodes := nodes[j := nodes[j].(inputs := nodes[j].inputs + ns)];
      Register(j, ns, g);
      RecursiveInvalidateCache(j);
      if Linked(g) && Coherent(g, old(cache), libm) {
        EditKeepsCoherent(g, nodes, old(cache), j, libm);
      }
    }

    /** SetInputs with the back-references that AddInput registers: keeps caches coherent. */
    method SetInputsLinked(j: nat, ns: seq<nat>)
      requires Valid() && j < |nodes| && forall k :: 0 <= k < |ns| ==> ns[k] < j
      modifies this
      ensures Valid()
      ensures |nodes| == |old(nodes)| && nodes[j].inputs == ns
      ensures nodes[j].op == old(nodes)[j].op && nodes[j].defaultOutput == old(nodes)[j].defaultOutput
      ensures SameExcept(old(nodes), nodes, j)
      ensures forall m :: 0 <= m < |nodes| ==> old(nodes)[m].outputs <= nodes[m].outputs
      ensures forall m :: 0 <= m < |nodes| ==> nodes[m].outputs == old(nodes)[m].outputs + Copies(j, Count(ns, m))
      ensures forall k :: 0 <= k < |ns| ==> j in nodes[ns[k]].outputs
      ensures cache == Invalidated(nodes, old(cache), j)
      ensures Linked(old(nodes)) ==> Linked(nodes)
      ensures Linked(old(nodes)) && Coherent(old(nodes), old(cache), libm) ==> Coherent(nodes, cache, libm)
    {
      ghost var g := nodes;
      nodes := nodes[j := nodes[j].(inputs := ns)];
      Register(j, ns, g);
      RecursiveInvalidateCache(j);
      if Linked(g) && Coherent(g, old(cache), libm) {
        EditKeepsCoherent(g, nodes, old(cache), j, libm);
      }
    }

    /**
     * Calls AddOutput(j) on each of `ns`. Given that node `j` was the only
     * node changed from `g`, and only by gaining inputs from `ns`, the
     * back-references of `g` are then complete again.
     */
    method Register(j: nat, ns: seq<nat>, ghost g: seq<Node>)
      requires Valid() && j < |nodes| && forall k :: 0 <= k < |ns| ==> ns[k] < j
      requires |g| == |nodes| && SameExcept(g, nodes, j)
      requires forall m :: 0 <= m < |g| ==> nodes[m].outputs == g[m].outputs
      requires forall k :: 0 <= k < |nodes[j].inputs| ==> nodes[j].inputs[k] in ns || nodes[j].inputs[k] in g[j].inputs
      modifies this`nodes
      ensures Valid()
      ensures SameExcept(g, nodes, j) && nodes[j] == old(nodes)[j].(outputs := nodes[j].outputs)
      ensures forall m :: 0 <= m < |nodes| ==> g[m].outputs <= nodes[m].outputs
      ensures forall m :: 0 <= m < |nodes| ==> nodes[m].outputs == g[m].outputs + Copies(j, Count(ns, m))
      ensures forall k :: 0 <= k < |ns| ==> j in nodes[ns[k]].outputs
      ensures Linked(g) ==> Linked(nodes)
    {
      assert ns[..0] == [];
      assert forall m :: 0 <= m < |nodes| ==> nodes[m].outputs == g[m].outputs + [];
      for p := 0 to |ns|
        invariant Valid() && |nodes| == |g| && SameExcept(g, nodes, j)
        invariant nodes[j] == old(nodes)[j].(outputs := nodes[j].outputs)
        invariant forall m :: 0 <= m < |nodes| ==> nodes[m].outputs == g[m].outputs + Copies(j, Count(ns[..p], m))
      {
        ghost var before := nodes;
        AddOutput(ns[p], j);
        AppendStep(before, nodes, g, j, ns, p);
      }
      assert ns[..|ns|] == ns;
      Registered(g, nodes, j, ns);
    }
  }

  /** One AddOutput(j) on ns[p] extends the outputs lists from ns[..p] to ns[..p + 1]. */
  lemma AppendStep(before: seq<Node>, after: seq<Node>, g: seq<Node>, j: nat, ns: seq<nat>, p: nat)
    requires p < |ns| && ns[p] < |before| && |g| == |before|
    requires after == before[ns[p] := before[ns[p]].(outputs := before[ns[p]].outputs + [j])]
    requires forall m :: 0 <= m < |before| ==> before[m].outputs == g[m].outputs + Copies(j, Count(ns[..p], m))
    ensures forall m :: 0 <= m < |after| ==> after[m].outputs == g[m].outputs + Copies(j, Count(ns[..p + 1], m))
  {
    forall m | 0 <= m < |after|
      ensures after[m].outputs == g[m].outputs + Copies(j, Count(ns[..p + 1], m))
    {
      CountStep(ns, p, m);
    }
  }

  /** What follows from every outputs list having gained one `j` per occurrence of its node in `ns`. */
  lemma Registered(g: seq<Node>, nodes: seq<Node>, j: nat, ns: seq<nat>)
    requires |g| == |nodes| && SameExcept(g, nodes, j) && j < |nodes|
    requires forall k :: 0 <= k < |ns| ==> ns[k] < j
    requires forall k :: 0 <= k < |nodes[j].inputs| ==> nodes[j].inputs[k] in ns || nodes[j].inputs[k] in g[j].inputs
    requires forall m :: 0 <= m < |nodes| ==> nodes[m].outputs == g[m].outputs + Copies(j, Count(ns, m))
    ensures forall m :: 0 <= m < |nodes| ==> g[m].outputs <= nodes[m].outputs
    ensures forall k :: 0 <= k < |ns| ==> j in nodes[ns[k]].outputs
    ensures Linked(g) ==> Linked(nodes)
  {
    forall k | 0 <= k < |ns|
      ensures j in nodes[ns[k]].outputs
    {
      CopiesMeaning(ns, ns[k], j);
      assert Copies(j, Count(ns, ns[k]))[0] == j;
    }
    if Linked(g) {
      RegisteredLinked(g, nodes, j, ns);
    }
  }

  /** Registering `j` on every node of `ns` completes the back-references of `g` after `j` gained inputs from `ns`. */
  lemma RegisteredLinked(g: seq<Node>, nodes: seq<Node>, j: nat, ns: seq<nat>)
    requires |g| == |nodes| && SameExcept(g, nodes, j) && j < |nodes| && Linked(g)
    requires forall k :: 0 <= k < |ns| ==> ns[k] < j
    requires forall k :: 0 <= k < |nodes[j].inputs| ==> nodes[j].inputs[k] in ns || nodes[j].inputs[k] in g[j].inputs
    requires forall m :: 0 <= m < |nodes| ==> g[m].outputs <= nodes[m].outputs
    requires forall k :: 0 <= k < |ns| ==> j in nodes[ns[k]].outputs
    ensures Linked(nodes)
  {
    forall a, k | 0 <= a < |nodes| && 0 <= k < |nodes[a].inputs| && nodes[a].inputs[k] < |nodes|
      ensures a in nodes[nodes[a].inputs[k]].outputs
    {
      var n := nodes[a].inputs[k];
      if a == j && n in ns {
        var q :| 0 <= q < |ns| && ns[q] == n;
      } else {
        var k' :| 0 <= k' < |g[a].inputs| && g[a].inputs[k'] == n;
        assert a in g[n].outputs;
        PrefixMember(g[n].outputs, nodes[n].outputs, a);
      }
    }
  }

  lemma PrefixMember(s: seq<nat>, t: seq<nat>, x: nat)
    requires s <= t && x in s
    ensures x in t
  {
  }

  /** The number of occurrences of `m` in `ns`. */
  function Count(ns: seq<nat>, m: nat): nat
    decreases |ns|
  {
    if ns == [] then 0 else Count(ns[..|ns| - 1], m) + (if ns[|ns| - 1] == m then 1 else 0)
  }

  /** `n` copies of `x`. */
  function Copies(x: nat, n: nat): seq<nat>
  {
    if n == 0 then [] else Copies(x, n - 1) + [x]
  }

  lemma CountStep(ns: seq<nat>, p: nat, m: nat)
    requires p < |ns|
    ensures Count(ns[..p + 1], m) == Count(ns[..p], m) + (if ns[p] == m then 1 else 0)
  {
    assert ns[..p + 1][..p] == ns[..p];
  }

  /** A node absent from `ns` gains no output, and every gained output is `x`. */
  lemma {:induction false} CopiesMeaning(ns: seq<nat>, m: nat, x: nat)
    ensures Count(ns, m) == 0 <==> m !in ns
    ensures |Copies(x, Count(ns, m))| == Count(ns, m)
    ensures forall q :: 0 <= q < |Copies(x, Count(ns, m))| ==> Copies(x, Count(ns, m))[q] == x
    decreases |ns|
  {
    if ns != [] {
      var init := ns[..|ns| - 1];
      CopiesMeaning(init, m, x);
      assert ns == init + [ns[|ns| - 1]];
    }
    CopiesAll(x, Count(ns, m));
  }

  lemma {:induction false} CopiesAll(x: nat, n: nat)
    ensures |Copies(x, n)| == n && forall q :: 0 <= q < n ==> Copies(x, n)[q] == x
  {
    if n > 0 {
      CopiesAll(x, n - 1);
    }
  }
}
