/**
 * The operator registry FUNCTION_SET (GraphNode.hpp, lines 319-322): a fixed,
 * zero-indexed table whose entry 0 is the null function pointer ("constant
 * node, use the default") and whose other entries are the operators in a
 * fixed order. A node's function pointer is an Option<Op>: None is nullptr.
 */
module FunctionTable {
  import opened Wrappers
  import Operators

  /** The operators, declared in the order of FUNCTION_SET. */
  datatype Op =
    | Sum | And | AnyEq | Not | Gate | Sin | Cos | Product | Exp
    | LessThan | GreaterThan | Max | Min | NegSum | Square | PosClamp | NegClamp | Sqrt

  const FUNCTION_SET: seq<Option<Op>> :=
    [None, Some(Sum), Some(And), Some(AnyEq), Some(Not), Some(Gate), Some(Sin),
     Some(Cos), Some(Product), Some(Exp), Some(LessThan), Some(GreaterThan), Some(Max), Some(Min),
     Some(NegSum), Some(Square), Some(PosClamp), Some(NegClamp), Some(Sqrt)]

  /** The position of an operator in FUNCTION_SET. */
  function Index(op: Op): (i: nat)
    ensures 0 < i < |FUNCTION_SET| && FUNCTION_SET[i] == Some(op)
  {
    match op
    case Sum => 1
    case And => 2
    case AnyEq => 3
    case Not => 4
    case Gate => 5
    case Sin => 6
    case Cos => 7
    case Product => 8
    case Exp => 9
    case LessThan => 10
    case GreaterThan => 11
    case Max => 12
    case Min => 13
    case NegSum => 14
    case Square => 15
    case PosClamp => 16
    case NegClamp => 17
    case Sqrt => 18
  }

  /** Index 0 alone is the constant entry, and every other index names one operator whose Index is that index. */
  lemma TableRoundTrip(i: nat)
    requires i < |FUNCTION_SET|
    ensures FUNCTION_SET[i].None? <==> i == 0
    ensures FUNCTION_SET[i].Some? ==> Index(FUNCTION_SET[i].value) == i
  {
  }

  /** function_pointer(*this): the operator applied to the node's input values and default output. */
  function Apply(op: Op, vals: seq<real>, default: real, libm: Operators.Libm): real
  {
    match op
    case Sum => Operators.Sum(vals)
    case And => Operators.And(vals)
    case AnyEq => Operators.AnyEq(vals, default)
    case Not => Operators.Not(vals, default)
    case Gate => Operators.Gate(vals, default)
    case Sin => Operators.SumOf(libm.sin, vals)
    case Cos => Operators.SumOf(libm.cos, vals)
    case Product => Operators.Product(vals)
    case Exp => Operators.SumOf(libm.exp, vals)
    case LessThan => Operators.LessThan(vals)
    case GreaterThan => Operators.GreaterThan(vals)
    case Max => Operators.Max(vals, default)
    case Min => Operators.Min(vals, default)
    case NegSum => Operators.NegSum(vals)
    case Square => Operators.Square(vals)
    case PosClamp => Operators.PosClamp(vals)
    case NegClamp => Operators.NegClamp(vals)
    case Sqrt => Operators.Sqrt(libm, vals)
  }

  /**
   * Arity fallbacks: on a node without inputs, AnyEq, Not, Gate, Max and Min
   * give the default, And, Product, LessThan and GreaterThan give 1, and every
   * sum gives 0; Gate also gives the default on a single input.
   */
  lemma NoInputs(op: Op, default: real, libm: Operators.Libm, x: real)
    ensures Apply(op, [], default, libm) ==
      match op
      case AnyEq | Not | Gate | Max | Min => default
      case And | Product | LessThan | GreaterThan => 1.0
      case _ => 0.0
    ensures Apply(Gate, [x], default, libm) == default
  {
  }
}
