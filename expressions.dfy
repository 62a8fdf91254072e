/**
 The expression vocabulary the comparable-criteria builder constructs nodes from:
 the comparison operators (a part of `Operators`) and the expression tree
 (`Expressions.call`, `Expressions.literal` and the attribute reference the
 criteria context supplies), each represented only as datatype constructors.
 */
module Expressions {

  datatype Option<+T> = None | Some(value: T)

  /** The four ordering operators the builder uses. */
  datatype Operator = LessThan | GreaterThan | LessThanOrEqual | GreaterThanOrEqual {

    /** The operator bounds the attribute from above ("less than ..."). */
    predicate IsUpperBound() {
      LessThan? || LessThanOrEqual?
    }

    /** The operator also admits equality ("... or equal"). */
    predicate IsInclusive() {
      LessThanOrEqual? || GreaterThanOrEqual?
    }
  }

  /** An operator is fully determined by its direction and its strictness. */
  lemma OperatorByBound(a: Operator, b: Operator)
    requires a.IsUpperBound() == b.IsUpperBound()
    requires a.IsInclusive() == b.IsInclusive()
    ensures a == b
  {
  }

  /** An immutable expression tree over literal values of type V. */
  datatype Expr<V> =
    | Path(name: string)                        // reference to an attribute of the model
    | Literal(value: V)                         // a constant, carried as given
    | Call(op: Operator, args: seq<Expr<V>>)    // an operator applied to its operands, in order

  /** A binary comparison of an attribute expression against a literal bound. */
  datatype Comparison<V> = Comparison(op: Operator, attribute: Expr<V>, bound: V)

  /** The call node `call(op, attribute, literal(bound))`. */
  function Encode<V>(c: Comparison<V>): (n: Expr<V>)
    ensures Decode(n) == Some(c)
  {
    Call(c.op, [c.attribute, Literal(c.bound)])
  }

  /**
   Recognises a binary comparison node: a call with exactly two operands whose
   second operand is a literal. It is the inverse of Encode.
   */
  function Decode<V>(n: Expr<V>): (r: Option<Comparison<V>>)
    ensures r.Some? ==> n == Call(r.value.op, [r.value.attribute, Literal(r.value.bound)])
  {
    match n
    case Call(op, args) =>
      if |args| == 2 && args[1].Literal? then
        assert args == [args[0], Literal(args[1].value)];
        Some(Comparison(op, args[0], args[1].value))
      else
        None
    case _ => None
  }

  /** Decode and Encode are inverse: a node decodes to `c` exactly when it is the encoding of `c`. */
  lemma DecodeEncode<V>(n: Expr<V>, c: Comparison<V>)
    ensures Decode(n) == Some(c) <==> Encode(c) == n
  {
  }
}
