/**
 The comparison-predicate builder `ComparableCriteria<R, V>` and its self-typed
 variant `ComparableCriteria.Self<V>`.

 Each of the four operators hands the context's `create` a node-building
 function: given the attribute expression `e`, it builds the binary call node
 (operator, [e, literal(argument)]). What `create` makes of that function is
 the context's business and stays uninterpreted here.
 */
module Constraints {
  import opened Expressions

  /**
   The part of the criteria context the builder uses: `create`, which takes
   the node-building function and yields the next result value.
   */
  datatype Context<+R, !V(!new)> = Context(create: (Expr<V> -> Expr<V>) -> R)

  /**
   The bound each public operator of the builder states, by its name:
   `Below` is `isLessThan`, `Above` is `isGreaterThan`, `AtMost` is
   `isAtMost` and `AtLeast` is `isAtLeast`.
   */
  datatype Bound = Below | Above | AtMost | AtLeast {

    /** `isLessThan` and `isAtMost` bound the attribute from above. */
    predicate BoundsAbove() {
      Below? || AtMost?
    }

    /** The "At" names are the inclusive bounds; the bare names are strict ("but not equal to"). */
    predicate Inclusive() {
      AtMost? || AtLeast?
    }
  }

  /**
   The operator tag each public operator puts in its node. It agrees with the
   operator's name on both direction and strictness, which determines it.
   */
  function OperatorOf(b: Bound): (op: Operator)
    ensures op.IsUpperBound() <==> b.BoundsAbove()
    ensures op.IsInclusive() <==> b.Inclusive()
  {
    match b
    case Below => LessThan
    case Above => GreaterThan
    case AtMost => LessThanOrEqual
    case AtLeast => GreaterThanOrEqual
  }

  /** The lambda `e -> call(op, e, literal(arg))` that an operator hands to `create`. */
  function Node<V(!new)>(op: Operator, arg: V): (build: Expr<V> -> Expr<V>)
    ensures forall e :: Decode(build(e)) == Some(Comparison(op, e, arg))
  {
    e => Encode(Comparison(op, e, arg))
  }

  /**
   `build` is a node-building function of the public operator stating bound
   `b` with argument `arg`: for every attribute expression it yields the
   comparison of that expression against `arg` under b's operator.
   */
  ghost predicate Builds<V(!new)>(build: Expr<V> -> Expr<V>, b: Bound, arg: V) {
    forall e :: build(e) == Encode(Comparison(OperatorOf(b), e, arg))
  }

  /** A comparable-criteria builder bound to one context; the constructor only stores it. */
  datatype ComparableCriteria<+R, !V(!new)> = ComparableCriteria(context: Context<R, V>) {

    /** Attribute strictly less than `upper`. */
    function IsLessThan(upper: V): (r: R)
      ensures exists build :: Builds(build, Below, upper) && r == context.create(build)
    {
      var build := Node(LessThan, upper);
      assert OperatorOf(Below) == LessThan;
      context.create(build)
    }

    /** Attribute strictly greater than `lower`. */
    function IsGreaterThan(lower: V): (r: R)
      ensures exists build :: Builds(build, Above, lower) && r == context.create(build)
    {
      var build := Node(GreaterThan, lower);
      assert OperatorOf(Above) == GreaterThan;
      context.create(build)
    }

    /** Attribute less than or equal to `upperInclusive`. */
    function IsAtMost(upperInclusive: V): (r: R)
      ensures exists build :: Builds(build, AtMost, upperInclusive) && r == context.create(build)
    {
      var build := Node(LessThanOrEqual, upperInclusive);
      assert OperatorOf(AtMost) == LessThanOrEqual;
      context.create(build)
    }

    /** Attribute greater than or equal to `lowerInclusive`. */
    function IsAtLeast(lowerInclusive: V): (r: R)
      ensures exists build :: Builds(build, AtLeast, lowerInclusive) && r == context.create(build)
    {
      var build := Node(GreaterThanOrEqual, lowerInclusive);
      assert OperatorOf(AtLeast) == GreaterThanOrEqual;
      context.create(build)
    }
  }

  /**
   Every node an operator builds is binary: its operator's tag, the attribute
   expression first and a literal carrying the argument unchanged second; a
   consumer of the tree decodes from it exactly that operator, attribute and
   argument.
   */
  lemma BinaryShape<V(!new)>(build: Expr<V> -> Expr<V>, m: Bound, arg: V, e: Expr<V>)
    requires Builds(build, m, arg)
    ensures build(e).Call? && build(e).op == OperatorOf(m)
    ensures build(e).args == [e, Literal(arg)]
    ensures Decode(build(e)) == Some(Comparison(OperatorOf(m), e, arg))
  {
  }

  /**
   For the same argument, a strict operator and its inclusive counterpart
   build nodes with identical operands that differ only in the operator tag.
   */
  lemma StrictVersusInclusive<V(!new)>(strict: Expr<V> -> Expr<V>, inclusive: Expr<V> -> Expr<V>,
                                 m: Bound, n: Bound, arg: V, e: Expr<V>)
    requires !m.Inclusive() && n.Inclusive() && m.BoundsAbove() == n.BoundsAbove()
    requires Builds(strict, m, arg) && Builds(inclusive, n, arg)
    ensures strict(e).args == inclusive(e).args
    ensures strict(e).op != inclusive(e).op
    ensures strict(e).op.IsUpperBound() == inclusive(e).op.IsUpperBound()
    ensures m.BoundsAbove() ==> strict(e).op == LessThan && inclusive(e).op == LessThanOrEqual
    ensures !m.BoundsAbove() ==> strict(e).op == GreaterThan && inclusive(e).op == GreaterThanOrEqual
  {
  }

  /** No two of the four operators build the same node, whatever the arguments. */
  lemma DistinctOperators<V(!new)>(b1: Expr<V> -> Expr<V>, b2: Expr<V> -> Expr<V>,
                             m1: Bound, m2: Bound, arg1: V, arg2: V, e: Expr<V>)
    requires Builds(b1, m1, arg1) && Builds(b2, m2, arg2)
    requires b1(e) == b2(e)
    ensures m1 == m2 && arg1 == arg2
  {
  }

  /** The builder whose result type is the builder itself, so that calls chain. */
  datatype Self<!V(!new)> = Self(criteria: ComparableCriteria<Self<V>, V>)

  /** One operator call in a chain: which operator and its argument. */
  datatype Step<V> = Step(bound: Bound, arg: V)

  /** One call of a chain, dispatched to the operator it names. */
  function Apply<V(!new)>(s: Self<V>, step: Step<V>): (r: Self<V>)
    ensures exists build :: Builds(build, step.bound, step.arg) && r == s.criteria.context.create(build)
  {
    match step.bound
    case Below => s.criteria.IsLessThan(step.arg)
    case Above => s.criteria.IsGreaterThan(step.arg)
    case AtMost => s.criteria.IsAtMost(step.arg)
    case AtLeast => s.criteria.IsAtLeast(step.arg)
  }

  /**
   A fluent chain of calls, each made on the builder the previous one
   returned. Built from the front, it is also the last call made on what the
   earlier calls returned.
   */
  function Chain<V(!new)>(s: Self<V>, steps: seq<Step<V>>): (r: Self<V>)
    ensures steps != [] ==> r == Apply(Chain(s, steps[..|steps| - 1]), steps[|steps| - 1])
    decreases |steps|
  {
    if steps == [] then s
    else
      var next, rest := Apply(s, steps[0]), steps[1..];
      if rest == [] then
        assert steps[..|steps| - 1] == [];
        Chain(next, rest)
      else
        var init := steps[..|steps| - 1];
        assert init[0] == steps[0] && init[1..] == rest[..|rest| - 1];
        assert Chain(s, init) == Chain(next, rest[..|rest| - 1]);
        Chain(next, rest)
  }

  /**
   A structural fact about Chain as a left fold: split anywhere, the rest of
   the chain runs on what the prefix returned. It holds whatever one call
   does; ChainLast is the statement about the builder.
   */
  lemma {:induction false} ChainAppend<V(!new)>(s: Self<V>, xs: seq<Step<V>>, ys: seq<Step<V>>)
    ensures Chain(s, xs + ys) == Chain(Chain(s, xs), ys)
    decreases |xs|
  {
    if xs == [] {
      assert xs + ys == ys;
    } else {
      assert (xs + ys)[0] == xs[0];
      assert (xs + ys)[1..] == xs[1..] + ys;
      ChainAppend(Apply(s, xs[0]), xs[1..], ys);
    }
  }

  /**
   The last call of a chain is made on the result of all earlier calls, and
   returns what that builder's context makes of the call's node builder.
   */
  lemma {:induction false} ChainLast<V(!new)>(s: Self<V>, steps: seq<Step<V>>, last: Step<V>)
    ensures Chain(s, steps + [last]) == Apply(Chain(s, steps), last)
    ensures exists build :: Builds(build, last.bound, last.arg)
                            && Chain(s, steps + [last]) == Chain(s, steps).criteria.context.create(build)
  {
    ChainAppend(s, steps, [last]);
    assert Chain(Chain(s, steps), [last]) == Chain(Apply(Chain(s, steps), last), []);
  }

  /**
   With a context whose `create` applies the node builder to the attribute
   `age`, `isAtLeast(18)` yields exactly the node
   GREATER_THAN_OR_EQUAL(age, literal(18)), without wrapping or extra nodes.
   The proof uses only the contract of `IsAtLeast`.
   */
  lemma AgeAtLeastEighteen()
    ensures ComparableCriteria(Context((f: Expr<int> -> Expr<int>) => f(Path("age")))).IsAtLeast(18)
            == Call(GreaterThanOrEqual, [Path("age"), Literal(18)])
  {
    var b := ComparableCriteria(Context((f: Expr<int> -> Expr<int>) => f(Path("age"))));
    var r := b.IsAtLeast(18);
    var build :| Builds(build, AtLeast, 18) && r == b.context.create(build);
    assert b.context.create(build) == build(Path("age"));
    assert build(Path("age")) == Encode(Comparison(OperatorOf(AtLeast), Path("age"), 18));
  }
}
