# Memoised decision graph (GraphNode) in Dafny

This project models `cowboys::GraphNode`, the node of a scalar decision graph used by the GP agents, together with its operator library and the `FUNCTION_SET` table.
- Each node has an ordered list of input nodes, an optional operator and a default output.
- `GetOutput()` memoises the node's value in a cache cell with a validity flag.
- Each node also keeps a list of output back-references. Changing the operator, the inputs or the default of a node clears the validity flag of that node and of every node reachable through these back-references.

Files and modules:

- `wrappers.dfy` (`Wrappers`): `Option`, the model of `std::optional`.
- `operators.dfy` (`Operators`): the operators as pure functions of a node's input values and default output. Their lemmas cover arity fallbacks, the meaning of `And`, `AnyEq`, `LessThan` and `GreaterThan`, the extremum results of `Max` and `Min`, and the fact that splitting a reduction does not change its sum or product. `AnyEqScan` is the early-exit loop of `AnyEq`, proved against the function.
- `function_table.dfy` (`FunctionTable`): the `Op` datatype in `FUNCTION_SET` order, the table itself (entry 0 is the null function pointer), the `Index` round trip, and `Apply`, the dispatch `function_pointer(*this)`.
- `evaluation.dfy` (`Evaluation`): the graph state as values.
  - A node record holds the inputs, outputs, operator and default. A separate cache cell holds `cached_output` and `cached_output_valid`.
  - `Eval` is what `GetOutput()` returns in a given state, reading valid caches. This includes stale ones, as the source does.
  - `Fresh` is the value a full re-evaluation would give.
  - `Reaches` follows the output back-references, and `Invalidated` clears their caches.
  - The module also proves the cache-coherence argument: evaluation and every back-reference-maintaining mutation keep "every valid cache holds the re-evaluated value" true.
- `graph.dfy` (`DecisionGraph`): class `Graph`, an arena of nodes addressed by index. It has one method per `GraphNode` member. Each method is proved against the functions of `Evaluation`: `GetOutput` with its recursive pull through `GetInputValues`, `RecursiveInvalidateCache` with its loop over `outputs`, and all the mutators.
- `scenarios.dfy` (`Scenarios`): client runs over `Graph`.
  - Two sensors feeding a `Sum`, and a chain of three `Sum` nodes.
  - The stale-cache behaviour of `AddInputs`/`SetInputs` as written, beside the corrected wiring.

Modelling choices:
- **Acyclicity.** Acyclic graphs are given by arena order: an input of node `j` has an index below `j`, and an output back-reference has an index above it. The invalidation walk and evaluation therefore terminate.
- **Numbers.** Doubles are reals. Every `std::reduce`/`std::transform_reduce` is a sequential left fold.
- **Transcendental functions.** The libm functions `sin`, `cos`, `exp` and `sqrt` are parameters: a `Libm` value fixed when the graph is created.

Where the code and its comments disagree, the model follows the code:
- **`AddInputs` and `SetInputs`.** The comment on `RecursiveInvalidateCache` (line 47) says it invalidates "the caches of all nodes that depend on this node". Only `AddInput` registers the node among the outputs of its new input, though. `AddInputs` and `SetInputs` do not, so those dependents are never invalidated (see "## Findings"). `SetInputs` also never removes the node from the outputs of its old inputs.
- **`Not` with no inputs.** `Not` returns the node's default when there are no inputs. Its doc comment says 1.
- **`GreaterThan`.** Its doc comment (line 250) says it tests for "ascending" inputs. Line 255 passes `std::greater`, which tests for non-increasing inputs, and the model follows line 255.

## Model

| member | source | states |
|---|---|---|
| Operators.SumAppend | source/Agents/GP/GraphNode.hpp:158-161 | Sum of a concatenation is the sum of the two sums, so the grouping in which a parallel reduce combines chunks does not change Sum |
| Operators.Sum | source/Agents/GP/GraphNode.hpp:158-161 | definition: the left fold of + from 0 over the inputs; see SumAppend and ReductionUnits |
| Operators.Product | source/Agents/GP/GraphNode.hpp:228-231 | definition: the left fold of * from 1 over the inputs; see ProductAppend and ReductionUnits |
| Operators.And | source/Agents/GP/GraphNode.hpp:166-169 | definition: 0 when some input is 0, else 1; see AndMeaning |
| Operators.AnyEq | source/Agents/GP/GraphNode.hpp:175-184 | reference definition: the default on no inputs, else 1 iff some later input equals input 0; AnyEqScan is proved equal to it |
| Operators.LessThan | source/Agents/GP/GraphNode.hpp:245-248 | definition: is_sorted with std::less; see LessThanMeaning |
| Operators.GreaterThan | source/Agents/GP/GraphNode.hpp:253-256 | definition: is_sorted with std::greater; see GreaterThanMeaning |
| Operators.Square | source/Agents/GP/GraphNode.hpp:286-290 | definition: the sum of the squared inputs; never negative by ClampSigns, splits by SumOfAppend |
| Operators.PosClamp | source/Agents/GP/GraphNode.hpp:295-299 | definition: the sum of max(0, x) over the inputs; never negative by ClampSigns, and with NegClamp adds up to Sum by ClampsAddUpToSum |
| Operators.NegClamp | source/Agents/GP/GraphNode.hpp:304-308 | definition: the sum of min(0, x) over the inputs; never positive by ClampSigns, and with PosClamp adds up to Sum by ClampsAddUpToSum |
| Operators.Sqrt | source/Agents/GP/GraphNode.hpp:313-317 | definition: the sum of libm sqrt(max(0, x)) over the inputs; splits by SumOfAppend |
| Operators.ProductAppend | source/Agents/GP/GraphNode.hpp:228-231 | Product of a concatenation is the product of the two products |
| Operators.SumOfAppend | source/Agents/GP/GraphNode.hpp:286-290 | a transform-then-sum of a concatenation is the sum of the two parts |
| Operators.ReductionUnits | source/Agents/GP/GraphNode.hpp:158-231 | Sum of no inputs is 0 and Product of no inputs is 1; of one input both are that input |
| Operators.NegSum | source/Agents/GP/GraphNode.hpp:278-281 | the negated Sum of line 281 is the sum of the negated inputs, as the doc comment of line 278 describes it |
| Operators.SumNegated | source/Agents/GP/GraphNode.hpp:281 | negating Sum of any inputs equals summing their negations |
| Operators.ClampSigns | source/Agents/GP/GraphNode.hpp:286-308 | Square and PosClamp are never negative, NegClamp never positive |
| Operators.ClampsAddUpToSum | source/Agents/GP/GraphNode.hpp:295-308 | PosClamp plus NegClamp of the same inputs equals their Sum |
| Operators.AnyEqualMeaning | source/Agents/GP/GraphNode.hpp:168 | any_of(val == x) holds iff some input equals x |
| Operators.AndMeaning | source/Agents/GP/GraphNode.hpp:166-169 | And is 0 iff some input is 0, 1 iff none is, and 1 on no inputs |
| Operators.AnyEqScan | source/Agents/GP/GraphNode.hpp:175-184 | the early-exit loop returns the default on no inputs, else 1 iff some input after the first equals the first, else 0 |
| Operators.MaxIndex | source/Agents/GP/GraphNode.hpp:97 | max_element of the indices is one of them and no index exceeds it |
| Operators.Select | source/Agents/GP/GraphNode.hpp:96-105 | no value iff some requested index is out of range; otherwise one value per index, value k being the input at indices[k] |
| Operators.Not | source/Agents/GP/GraphNode.hpp:189-194 | the default on no inputs; otherwise 1 iff input 0 is 0, and 0 iff it is not |
| Operators.Gate | source/Agents/GP/GraphNode.hpp:200-205 | the default on fewer than 2 inputs; otherwise input 0 when input 1 is not 0, and 0 when it is |
| Operators.IsSortedAdjacent | source/Agents/GP/GraphNode.hpp:247 | is_sorted(comp) holds iff no adjacent pair has comp(later, earlier) |
| Operators.LessThanMeaning | source/Agents/GP/GraphNode.hpp:245-248 | LessThan is 1 iff every earlier input is <= every later one, 0 iff some later input is strictly smaller, and 1 on 0 or 1 inputs |
| Operators.GreaterThanMeaning | source/Agents/GP/GraphNode.hpp:253-256 | GreaterThan is 1 iff every earlier input is >= every later one, 0 iff some later input is strictly larger, and 1 on 0 or 1 inputs |
| Operators.MaxElement | source/Agents/GP/GraphNode.hpp:265 | max_element yields an input that is >= every input |
| Operators.MinElement | source/Agents/GP/GraphNode.hpp:275 | min_element yields an input that is <= every input |
| Operators.Max | source/Agents/GP/GraphNode.hpp:261-266 | the default on no inputs; otherwise an input that is >= every input |
| Operators.Min | source/Agents/GP/GraphNode.hpp:271-276 | the default on no inputs; otherwise an input that is <= every input |
| FunctionTable.Index | source/Agents/GP/GraphNode.hpp:320-322 | every operator sits at a non-zero position of FUNCTION_SET |
| FunctionTable.TableRoundTrip | source/Agents/GP/GraphNode.hpp:320-322 | entry 0 alone is the null function pointer, and every other entry's operator has that entry's index |
| FunctionTable.NoInputs | source/Agents/GP/GraphNode.hpp:175-276 | on no inputs AnyEq, Not, Gate, Max, Min give the default, And, Product, LessThan, GreaterThan give 1, the sums give 0; Gate on one input gives the default |
| FunctionTable.Apply | source/Agents/GP/GraphNode.hpp:72 | definition: calling the function pointer dispatches on the operator to the functions above, with Sin, Cos and Exp as the sums of the libm function over the inputs; see NoInputs and DecisionGraph.Graph.Invoke |
| Evaluation.Eval | source/Agents/GP/GraphNode.hpp:65-80 | definition: a valid cache gives its cached output, otherwise the operator applied to the input values, or the default without an operator; GetOutput is proved to return it |
| Evaluation.InputValues | source/Agents/GP/GraphNode.hpp:84-90 | definition: the Eval of each input in input order; GetInputValues is proved to return it |
| Evaluation.Cold | source/Agents/GP/GraphNode.hpp:37-41 | a never-evaluated node's cache is invalid |
| Evaluation.Invalidated | source/Agents/GP/GraphNode.hpp:48-53 | definition: the cache with exactly the flags of nodes reachable through outputs cleared; RecursiveInvalidateCache is proved to produce it, InvalidatedKeepsCoherent and EditKeepsCoherent are about it |
| Evaluation.RefinesKeepsEval | source/Agents/GP/GraphNode.hpp:65-80 | storing computed values in invalid caches, as GetOutput does, never changes what any node evaluates to |
| Evaluation.RefinesTransitive | source/Agents/GP/GraphNode.hpp:84-90 | successive evaluations of inputs compose into one such cache update |
| Evaluation.ReachesUpward | source/Agents/GP/GraphNode.hpp:48-53 | the invalidation walk only reaches nodes after its start |
| Evaluation.ReachesStep | source/Agents/GP/GraphNode.hpp:48-53 | whatever a reached node lists in its outputs is reached too |
| Evaluation.CoherentEval | source/Agents/GP/GraphNode.hpp:65-80 | when every valid cache holds the re-evaluated value, GetOutput's value is the re-evaluated value |
| Evaluation.RefinesKeepsCoherent | source/Agents/GP/GraphNode.hpp:65-80 | evaluation keeps caches coherent |
| Evaluation.InvalidatedKeepsCoherent | source/Agents/GP/GraphNode.hpp:48-53 | invalidation keeps caches coherent |
| Evaluation.UnreachedKeepsFresh | source/Agents/GP/GraphNode.hpp:116-121 | when every input edge has its back-reference, a node that the walk from the edited node does not reach keeps its re-evaluated value |
| Evaluation.EditKeepsCoherent | source/Agents/GP/GraphNode.hpp:107-144 | editing one node's operator, default or inputs and then invalidating from it keeps caches coherent, provided back-references are complete |
| Evaluation.ExtendKeepsEval | source/Agents/GP/GraphNode.hpp:56-61 | adding a node changes no existing node's value |
| Evaluation.ExtendKeepsCoherent | source/Agents/GP/GraphNode.hpp:56-61 | adding a node with an invalid cache keeps caches coherent |
| DecisionGraph.Graph.constructor | source/Agents/GP/GraphNode.hpp:23-41 | an empty graph: no nodes and no caches, with the given libm functions |
| DecisionGraph.Graph.AddNode | source/Agents/GP/GraphNode.hpp:56-61 | appends a node with no inputs or outputs, the given operator and default, and an invalid cache holding 0 |
| DecisionGraph.Graph.GetOutput | source/Agents/GP/GraphNode.hpp:65-80 | with a valid cache returns the cached output and changes nothing; otherwise returns the operator's result (the default without an operator) and leaves the cache valid holding it; only invalid caches of earlier nodes are filled, with their values; in a coherent state the result is the re-evaluated value; a node that does not feed node `i` keeps its cache |
| DecisionGraph.Graph.Invoke | source/Agents/GP/GraphNode.hpp:69-73 | calling the function pointer yields the operator applied to the node's input values and default; a node that does not feed node `i` keeps its cache |
| DecisionGraph.Graph.GetInputValues | source/Agents/GP/GraphNode.hpp:84-90 | one value per input, value k being the output of input k; a node that does not feed node `i` keeps its cache |
| DecisionGraph.Graph.GetInputValuesAt | source/Agents/GP/GraphNode.hpp:96-105 | no value iff some index is beyond the inputs; otherwise one value per index, value k being the output of the input at indices[k]; a node that does not feed node `i` keeps its cache |
| DecisionGraph.Graph.AddOutput | source/Agents/GP/GraphNode.hpp:45 | appends the dependent to the node's outputs and changes nothing else |
| DecisionGraph.Graph.RecursiveInvalidateCache | source/Agents/GP/GraphNode.hpp:48-53 | clears the validity flag of exactly the nodes reachable through outputs, keeps every cached output and every node |
| DecisionGraph.Graph.SetFunctionPointer | source/Agents/GP/GraphNode.hpp:109-112 | replaces the operator and invalidates from the node; keeps coherence when back-references are complete |
| DecisionGraph.Graph.AddInput | source/Agents/GP/GraphNode.hpp:116-121 | appends the input, appends the node to the input's outputs, invalidates; keeps back-references complete and caches coherent |
| DecisionGraph.Graph.AddInputs | source/Agents/GP/GraphNode.hpp:125-128 | appends the inputs in order and invalidates, touching no outputs list |
| DecisionGraph.Graph.SetInputs | source/Agents/GP/GraphNode.hpp:132-135 | replaces the inputs and invalidates, touching no outputs list |
| DecisionGraph.Graph.SetDefaultOutput | source/Agents/GP/GraphNode.hpp:139-144 | writing the current default changes no node and no cache; another value is stored and invalidates; keeps coherence when back-references are complete |
| DecisionGraph.Graph.GetDefaultOutput | source/Agents/GP/GraphNode.hpp:148 | returns the default output and changes nothing |
| DecisionGraph.Graph.IsCacheValid | source/Agents/GP/GraphNode.hpp:152 | returns the validity flag; when true, evaluating the node yields the cached output |
| DecisionGraph.Graph.Register | source/Agents/GP/GraphNode.hpp:119 | each node's outputs list becomes its old list followed by one copy of the registering node per occurrence of that list's node among the new inputs, so nodes outside the new inputs keep their lists; restores complete back-references |
| DecisionGraph.CopiesMeaning | source/Agents/GP/GraphNode.hpp:119 | a node not among the new inputs gains no output, and every output gained is the registering node |
| DecisionGraph.Graph.AddInputsLinked | source/Agents/GP/GraphNode.hpp:125-128 | appends the inputs, appends exactly one copy of the node to an input's outputs per occurrence of that input among the new inputs, changing no other outputs list, and invalidates; keeps caches coherent |
| DecisionGraph.Graph.SetInputsLinked | source/Agents/GP/GraphNode.hpp:132-135 | replaces the inputs, appends exactly one copy of the node to an input's outputs per occurrence of that input among the new inputs, changing no other outputs list, and invalidates; keeps caches coherent |
| Scenarios.SumOfTwoSensors | source/Agents/GP/GraphNode.hpp:116-144 | A(2), B(5) into C = Sum: C yields 7; after A's default becomes 10, C is invalid and yields 15 |
| Scenarios.Chain | source/Agents/GP/GraphNode.hpp:48-53 | in the chain A -> B -> C -> D, changing A invalidates B, C and D, and D alone yields the new value |
| Scenarios.StaleAfterSetInputs | source/Agents/GP/GraphNode.hpp:132-135 | wired with SetInputs, C keeps a valid cache of 7 after A changes although re-evaluation gives 15 |
| Scenarios.FixedSetInputs | source/Agents/GP/GraphNode.hpp:132-135 | wired with SetInputsLinked, C is invalidated and yields 15 |
| Scenarios.StaleAfterAddInputs | source/Agents/GP/GraphNode.hpp:125-128 | wired with AddInputs, C keeps a valid cache of 7 after A changes although re-evaluation gives 15 |
| Scenarios.FixedAddInputs | source/Agents/GP/GraphNode.hpp:125-128 | wired with AddInputsLinked, C is invalidated and yields 15 |
| Scenarios.UnrelatedCacheUntouched | source/Agents/GP/GraphNode.hpp:65-90 | A(1), B(2), C = Sum of B: C yields 2 and A's cache stays invalid, since only the inputs C pulls are evaluated |

## Left out

- Sin, Cos, Exp and Sqrt: the libm functions `std::sin`, `std::cos`, `std::exp` and `std::sqrt` are parameters (`Operators.Libm`) and are not defined. Only the transform-then-sum structure around them is modelled.
- IEEE doubles: rounding, NaN comparisons and infinities are not modelled, because values are reals. The unspecified combination order of `std::execution::par` is a sequential left fold. Over exact reals the grouping is irrelevant (`SumAppend`, `ProductAppend`), but it is relevant over doubles. That reordering the inputs leaves `Sum` and `Product` unchanged is not proved.
- `shared_ptr`/`enable_shared_from_this` ownership, node destruction and dangling `outputs` pointers: arena indices replace pointers.
- Cyclic graphs: the source recurses without bound on them, and the model makes acyclicity a precondition instead. It is expressed through arena order, so a node can only take inputs that were created before it.
- DecisionGraph.Graph.GetInputValuesAt: requires at least one index. For an empty index array the source dereferences `max_element` of an empty range.
- The out-of-range exception of `inputs.at(index)` is not modelled: the preceding bound check makes it unreachable.
- Function pointers outside `FUNCTION_SET`: `SetFunctionPointer` and the `GraphNode(NodeFunction)` constructor (lines 19, 61 and 109) accept any `double (*)(const GraphNode &)`. The model's `Option<Op>` admits only the 18 operators of `FUNCTION_SET` and the null pointer.
- Concurrent calls into one graph are not modelled. The model is sequential.
- source/Interfaces/NetWorth/client/clientmain.cpp and source/simple_main.cpp (networking client and demo game loop) are not part of this model.

## Findings

| source | as written | input that shows it | evidently intended | confidence | as-written member | corrected member |
|---|---|---|---|---|---|---|
| source/Agents/GP/GraphNode.hpp:125-128 | `AddInputs` appends the inputs but never calls `AddOutput` on them, so later changes to those inputs do not invalidate this node | A(2), B(5), C = Sum; `C.AddInputs({A, B})`; `C.GetOutput()` is 7; `A.SetDefaultOutput(10)`; `C.IsCacheValid()` is still true and `C.GetOutput()` is 7, not 15 | register this node among the outputs of every new input, as `AddInput` does, so that caches stay coherent | not executed; high | DecisionGraph.Graph.AddInputs, Scenarios.StaleAfterAddInputs | DecisionGraph.Graph.AddInputsLinked, Scenarios.FixedAddInputs |
| source/Agents/GP/GraphNode.hpp:132-135 | `SetInputs` replaces the inputs without registering back-references on the new inputs | the same graph wired with `C.SetInputs({A, B})`: after `A.SetDefaultOutput(10)` C still yields 7, not 15 | register this node among the outputs of every new input | not executed; high | DecisionGraph.Graph.SetInputs, Scenarios.StaleAfterSetInputs | DecisionGraph.Graph.SetInputsLinked, Scenarios.FixedSetInputs |
