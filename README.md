# ComparableCriteria — a Dafny model

This project models the comparison-predicate builder of the Immutables
criteria library: `ComparableCriteria<R, V>` and its self-typed variant
`ComparableCriteria.Self<V>`. A builder is bound to one criteria context. Each
of its four operators — `isLessThan`, `isGreaterThan`, `isAtMost`,
`isAtLeast` — hands the context's `create` a node-building function which,
given the attribute expression `e`, builds the binary call node
`call(OP, e, literal(arg))`, and returns whatever `create` returns.

Files:

- `expressions.dfy` (module `Expressions`): the operator tags (`LessThan`,
  `GreaterThan`, `LessThanOrEqual`, `GreaterThanOrEqual`) with their direction
  and strictness, the expression tree (`Path`, `Literal`, `Call`), `Encode`
  (the call node built from an operator, an attribute expression and a bound)
  and its inverse `Decode`, which recognises such a node.
- `comparable_criteria.dfy` (module `Constraints`): the context (`create` is a
  field of function type, left uninterpreted), the builder datatype
  `ComparableCriteria<R, V>` with the four operators as member functions, the
  `Self<V>` variant whose result type is itself, and the lemmas.

How the source maps onto the model:

- The Java constructor only forwards the context to `super`; the datatype
  constructor `ComparableCriteria(context)` likewise only stores it. `Self<V>`
  wraps a `ComparableCriteria<Self<V>, V>`, so every operator called on it
  returns a `Self<V>` again, and `Chain` strings such calls together.
- The lambda each operator passes to `create` is `Node(op, arg)`. `Bound`
  names the four operators (`Below` for `isLessThan`, `Above` for
  `isGreaterThan`, `AtMost`, `AtLeast`). The ghost predicate
  `Builds(build, b, arg)` says that a function builds, for every attribute
  expression `e`, the comparison node of bound `b`'s operator against `arg`.
  Each operator's contract says that its result is `create(build)` for a
  `build` with that property.
- The strict-versus-inclusive distinction the doc comments insist on is stated
  independently of the operator tags: `Bound.BoundsAbove` and
  `Bound.Inclusive` classify the four operators by their names and doc
  comments, `Operator.IsUpperBound` and `Operator.IsInclusive` classify the
  tags, and `OperatorOf` is proved to agree on both, which determines the tag
  (`Expressions.OperatorByBound`).
- All members are functions, so determinism and the absence of state are
  given by construction: equal builders and equal arguments give equal
  results, and no call changes the builder.

## Model

| member | source | states |
|---|---|---|
| `Constraints.OperatorOf` | criteria/common/src/org/immutables/criteria/constraints/ComparableCriteria.java:29-57 | the tag each operator uses bounds from above exactly for `isLessThan`/`isAtMost` and admits equality exactly for `isAtMost`/`isAtLeast`, as the names and doc comments say |
| `Constraints.ComparableCriteria.IsLessThan` | criteria/common/src/org/immutables/criteria/constraints/ComparableCriteria.java:33-35 | the result is what `create` returns for a function that maps every attribute expression `e` to `call(LESS_THAN, e, literal(upper))` |
| `Constraints.ComparableCriteria.IsGreaterThan` | criteria/common/src/org/immutables/criteria/constraints/ComparableCriteria.java:41-43 | the result is what `create` returns for a function that maps every `e` to `call(GREATER_THAN, e, literal(lower))` |
| `Constraints.ComparableCriteria.IsAtMost` | criteria/common/src/org/immutables/criteria/constraints/ComparableCriteria.java:48-50 | the result is what `create` returns for a function that maps every `e` to `call(LESS_THAN_OR_EQUAL, e, literal(upperInclusive))` |
| `Constraints.ComparableCriteria.IsAtLeast` | criteria/common/src/org/immutables/criteria/constraints/ComparableCriteria.java:55-57 | the result is what `create` returns for a function that maps every `e` to `call(GREATER_THAN_OR_EQUAL, e, literal(lowerInclusive))` |
| `Constraints.BinaryShape` | criteria/common/src/org/immutables/criteria/constraints/ComparableCriteria.java:33-57 | every node an operator builds is a call with that operator's tag and exactly two operands, the attribute expression first and a literal holding the argument unchanged second; decoding it gives back operator, attribute and argument |
| `Constraints.StrictVersusInclusive` | criteria/common/src/org/immutables/criteria/constraints/ComparableCriteria.java:29-57 | for the same argument, `isLessThan`/`isAtMost` and `isGreaterThan`/`isAtLeast` build nodes with identical operand lists that differ only in the tag (LESS_THAN vs LESS_THAN_OR_EQUAL, GREATER_THAN vs GREATER_THAN_OR_EQUAL) |
| `Constraints.DistinctOperators` | criteria/common/src/org/immutables/criteria/constraints/ComparableCriteria.java:33-57 | two operator calls that build the same node on the same attribute are the same operator with the same argument, so no two of the four are interchangeable |
| `Constraints.Apply` | criteria/common/src/org/immutables/criteria/constraints/ComparableCriteria.java:59-63 | an operator called on a `Self<V>` returns a `Self<V>`: what that builder's `create` returns for the operator's node builder |
| `Constraints.ChainAppend` | criteria/common/src/org/immutables/criteria/constraints/ComparableCriteria.java:59-63 | a fluent chain on `Self<V>` split anywhere is the rest of the chain run on the builder the prefix returned |
| `Constraints.ChainLast` | criteria/common/src/org/immutables/criteria/constraints/ComparableCriteria.java:59-63 | the last call of a chain is made on the result of all earlier calls and returns that builder's `create` of the call's node builder |
| `Constraints.AgeAtLeastEighteen` | criteria/common/src/org/immutables/criteria/constraints/ComparableCriteria.java:55-57 | with a context that applies the node builder to the attribute `age`, `isAtLeast(18)` is exactly `call(GREATER_THAN_OR_EQUAL, age, literal(18))` |
| `Expressions.OperatorByBound` | criteria/common/src/org/immutables/criteria/constraints/ComparableCriteria.java:29-57 | two operator tags with the same direction and the same strictness are the same tag; with `OperatorOf`'s contract this fixes the tag each operator uses |
| `Constraints.Node` | criteria/common/src/org/immutables/criteria/constraints/ComparableCriteria.java:34 | the lambda `e -> call(op, e, literal(arg))` an operator hands to `create`: for every `e`, decoding its node gives back `op`, `e` and `arg` |
| `Constraints.Chain` | criteria/common/src/org/immutables/criteria/constraints/ComparableCriteria.java:59-63 | a chain of calls on `Self<V>`, built from the first call on, is its last call made on the builder the earlier calls returned |
| `Expressions.Encode` | criteria/common/src/org/immutables/criteria/constraints/ComparableCriteria.java:34 | the node `call(op, e, literal(v))` decodes to `op`, `e` and `v` |
| `Expressions.Decode` | criteria/common/src/org/immutables/criteria/constraints/ComparableCriteria.java:34 | a node that decodes is a call with exactly two operands, the decoded attribute first and a literal holding the decoded bound second |
| `Expressions.DecodeEncode` | criteria/common/src/org/immutables/criteria/constraints/ComparableCriteria.java:34 | a node decodes to a comparison exactly when it is that comparison's encoding `call(op, e, literal(v))` |

## Left out

- `ObjectCriteria.create` and `CriteriaContext` are not part of this model: `create` is a field of function type on the context, and the model does not say how it applies the node builder or folds the node into a larger tree.
- `Expressions.call`, `Expressions.literal` and `Operators` are not part of this model; they appear only as the datatype constructors `Call` and `Literal` and the four tags used here. The other operators of `Operators` are not modelled.
- Null arguments: the four operators do no null check, so a null argument is simply one more value of `V` that reaches the literal unchanged. A caller might expect null rejection here; this layer does none, and the model claims none.
- `V extends Comparable<V>` and the self-referential generic bound of `Self<V>` are type-system mechanics; `V` is a plain type parameter and `Self<V>` is a datatype wrapping a builder whose result type is `Self<V>`.
- What the comparisons mean on actual values (evaluation or translation into a backend query) and the logical combinators (and, or, not) do not happen in this file and are not modelled.
