/** Symbolic differentiation, `diff` (objectExpression.js:11-13, 40-45,
    67-69, 95-174, 345-390): a structural rewrite with fixed, unsimplified
    output shapes. */
module Differentiation {
  import opened Expressions

  function Two(): Expr { Const(Int(2)) }

  function Plus(a: Expr, b: Expr): Expr { Op(Add, [a, b]) }
  function Minus(a: Expr, b: Expr): Expr { Op(Subtract, [a, b]) }
  function Times(a: Expr, b: Expr): Expr { Op(Multiply, [a, b]) }
  function Over(a: Expr, b: Expr): Expr { Op(Divide, [a, b]) }

  /** `Array.prototype.reduce` with `Add` as the step: the terms are added one
      after the other onto the accumulator, leftmost first. */
  function ReduceAdd(acc: Expr, terms: seq<Expr>): Expr
    decreases |terms|
  {
    if terms == [] then acc else ReduceAdd(Plus(acc, terms[0]), terms[1..])
  }

  /** `new Multiply(new Sumexp(a), a')`: one term of the sumexp derivative. */
  function SumexpTerm(a: Expr, d: Expr): Expr {
    Times(Op(Sumexp, [a]), d)
  }

  /** `new Multiply(a, a')`: one term of the sumsq derivative. */
  function SquareTerm(a: Expr, d: Expr): Expr {
    Times(a, d)
  }

  function SumexpTerms(args: seq<Expr>, ds: seq<Expr>): (r: seq<Expr>)
    requires |args| == |ds|
    ensures |r| == |args| && forall i :: 0 <= i < |r| ==> r[i] == SumexpTerm(args[i], ds[i])
  {
    seq(|args|, i requires 0 <= i < |args| => SumexpTerm(args[i], ds[i]))
  }

  function SquareTerms(args: seq<Expr>, ds: seq<Expr>): (r: seq<Expr>)
    requires |args| == |ds|
    ensures |r| == |args| && forall i :: 0 <= i < |r| ==> r[i] == SquareTerm(args[i], ds[i])
  {
    seq(|args|, i requires 0 <= i < |args| => SquareTerm(args[i], ds[i]))
  }

  /** `getDiffedSumExpExpression(args, diffedArgs)` (objectExpression.js:148-153). */
  function DiffedSumexp(args: seq<Expr>, ds: seq<Expr>): Expr
    requires |args| == |ds| >= 1
  {
    var terms := SumexpTerms(args, ds);
    ReduceAdd(terms[0], terms[1..])
  }

  /** `getDiffedSumSqExpression(args, diffedArgs)` (objectExpression.js:345-357). */
  function DiffedSumsq(args: seq<Expr>, ds: seq<Expr>): Expr
    requires |args| == |ds| >= 2
  {
    var terms := SquareTerms(args, ds);
    Times(Two(), ReduceAdd(Plus(terms[0], terms[1]), terms[2..]))
  }

  predicate IsSumsq(k: OpKind) {
    k == Sumsq2 || k == Sumsq3 || k == Sumsq4 || k == Sumsq5
  }

  predicate IsDistance(k: OpKind) {
    k == Distance2 || k == Distance3 || k == Distance4 || k == Distance5
  }

  /** The `getDiffExpression` of each operator, given the node's own
      arguments and their derivatives. */
  function DiffRule(k: OpKind, args: seq<Expr>, ds: seq<Expr>): Expr
    requires |ds| == |args|
    requires if Arity(k) == Variadic then |args| >= 1 else |args| == Arity(k)
  {
    match k
    case Negate => Op(Negate, [ds[0]])
    case Add => Plus(ds[0], ds[1])
    case Subtract => Minus(ds[0], ds[1])
    case Multiply => Plus(Times(args[0], ds[1]), Times(ds[0], args[1]))
    case Divide => Over(Minus(Times(ds[0], args[1]), Times(args[0], ds[1])), Times(args[1], args[1]))
    case Sumexp => DiffedSumexp(args, ds)
    case Lse => Over(DiffedSumexp(args, ds), Op(Sumexp, args))
    case Sumsq2 | Sumsq3 | Sumsq4 | Sumsq5 => DiffedSumsq(args, ds)
    case Distance2 | Distance3 | Distance4 | Distance5 =>
      Over(DiffedSumsq(args, ds), Times(Two(), Op(k, args)))
  }

  /** `e.diff(v)`. The derivative can itself be differentiated, and it
      mentions no variable that `e` does not. */
  function Diff(e: Expr, v: string): (r: Expr)
    requires Differentiable(e)
    ensures Differentiable(r)
    ensures forall n :: Mentions(r, n) ==> Mentions(e, n)
    decreases e, 1
  {
    match e
    case Const(_) => Const(Int(0))
    case Var(n) => if v == NameText(n) then Const(Int(1)) else Const(Int(0))
    case Op(k, args) =>
      var ds := Derivatives(args, v);
      RuleKeepsInvariants(k, args, ds);
      DiffRule(k, args, ds)
  }

  /** `this._args.map((_arg) => _arg.diff(v))`: the derivatives of a list of
      arguments, in order, each differentiable and mentioning only the
      variables of its argument. */
  function Derivatives(args: seq<Expr>, v: string): (ds: seq<Expr>)
    requires forall i :: 0 <= i < |args| ==> Differentiable(args[i])
    ensures |ds| == |args|
    ensures forall i :: 0 <= i < |args| ==> ds[i] == Diff(args[i], v)
    ensures forall i :: 0 <= i < |args| ==> Differentiable(ds[i])
    ensures forall i, n :: 0 <= i < |args| && Mentions(ds[i], n) ==> Mentions(args[i], n)
    decreases args, 0
  {
    seq(|args|, i requires 0 <= i < |args| => Diff(args[i], v))
  }

  // ---------------------------------------------------------------- invariants of the rules

  lemma {:induction false} ReduceAddKeepsInvariants(acc: Expr, terms: seq<Expr>)
    requires Differentiable(acc) && forall i :: 0 <= i < |terms| ==> Differentiable(terms[i])
    ensures Differentiable(ReduceAdd(acc, terms))
    ensures forall n :: Mentions(ReduceAdd(acc, terms), n) ==>
      Mentions(acc, n) || exists i :: 0 <= i < |terms| && Mentions(terms[i], n)
    decreases |terms|
  {
    if terms != [] {
      var next := Plus(acc, terms[0]);
      assert Differentiable(next);
      ReduceAddKeepsInvariants(next, terms[1..]);
      forall n | Mentions(ReduceAdd(acc, terms), n)
        ensures Mentions(acc, n) || exists i :: 0 <= i < |terms| && Mentions(terms[i], n)
      {
        if !Mentions(next, n) {
          var i :| 0 <= i < |terms[1..]| && Mentions(terms[1..][i], n);
          assert Mentions(terms[i + 1], n);
        } else {
          assert Mentions(next.args[0], n) || Mentions(next.args[1], n);
        }
      }
    }
  }

  /** Every variable `r` mentions is mentioned by an argument or by its derivative. */
  predicate MentionsOnlyOperands(r: Expr, args: seq<Expr>, ds: seq<Expr>)
    requires |ds| == |args|
  {
    forall n :: Mentions(r, n) ==> exists i :: 0 <= i < |args| && (Mentions(args[i], n) || Mentions(ds[i], n))
  }

  lemma DiffedSumexpInvariants(args: seq<Expr>, ds: seq<Expr>)
    requires |args| == |ds| >= 1
    requires forall i :: 0 <= i < |args| ==> Differentiable(args[i]) && Differentiable(ds[i])
    ensures Differentiable(DiffedSumexp(args, ds)) && MentionsOnlyOperands(DiffedSumexp(args, ds), args, ds)
  {
    var terms := SumexpTerms(args, ds);
    forall i | 0 <= i < |terms| ensures Differentiable(terms[i]) {
      assert Differentiable(Op(Sumexp, [args[i]]));
    }
    ReduceAddKeepsInvariants(terms[0], terms[1..]);
    forall n | Mentions(DiffedSumexp(args, ds), n)
      ensures exists i :: 0 <= i < |args| && (Mentions(args[i], n) || Mentions(ds[i], n))
    {
      var j := if Mentions(terms[0], n) then 0
               else var j' :| 0 <= j' < |terms[1..]| && Mentions(terms[1..][j'], n); j' + 1;
      BinaryMentions(Multiply, Op(Sumexp, [args[j]]), ds[j], n);
      UnaryMentions(Sumexp, args[j], n);
    }
  }

  /** The variables of a one-operand node are those of its operand. */
  lemma UnaryMentions(k: OpKind, a: Expr, n: Name)
    ensures Mentions(Op(k, [a]), n) <==> Mentions(a, n)
  {
    if Mentions(a, n) { assert [a][0] == a; }
  }

  lemma DiffedSumsqInvariants(args: seq<Expr>, ds: seq<Expr>)
    requires |args| == |ds| >= 2
    requires forall i :: 0 <= i < |args| ==> Differentiable(args[i]) && Differentiable(ds[i])
    ensures Differentiable(DiffedSumsq(args, ds)) && MentionsOnlyOperands(DiffedSumsq(args, ds), args, ds)
  {
    var terms := SquareTerms(args, ds);
    TermsDifferentiable(args, ds);
    var first := Plus(terms[0], terms[1]);
    ReduceAddKeepsInvariants(first, terms[2..]);
    var red := ReduceAdd(first, terms[2..]);
    assert Differentiable(Times(Two(), red));
    forall n | Mentions(DiffedSumsq(args, ds), n)
      ensures exists i :: 0 <= i < |args| && (Mentions(args[i], n) || Mentions(ds[i], n))
    {
      BinaryMentions(Multiply, Two(), red, n);
      BinaryMentions(Add, terms[0], terms[1], n);
      var j := if Mentions(terms[0], n) then 0
               else if Mentions(terms[1], n) then 1
               else var j' :| 0 <= j' < |terms[2..]| && Mentions(terms[2..][j'], n); j' + 2;
      BinaryMentions(Multiply, args[j], ds[j], n);
    }
  }

  lemma TermsDifferentiable(args: seq<Expr>, ds: seq<Expr>)
    requires |args| == |ds|
    requires forall i :: 0 <= i < |args| ==> Differentiable(args[i]) && Differentiable(ds[i])
    ensures forall i :: 0 <= i < |args| ==> Differentiable(SquareTerms(args, ds)[i])
  {
    forall i | 0 <= i < |args| ensures Differentiable(SquareTerms(args, ds)[i]) {
      assert SquareTerms(args, ds)[i] == Times(args[i], ds[i]);
    }
  }

  lemma RuleKeepsInvariants(k: OpKind, args: seq<Expr>, ds: seq<Expr>)
    requires |ds| == |args|
    requires if Arity(k) == Variadic then |args| >= 1 else |args| == Arity(k)
    requires forall i :: 0 <= i < |args| ==> Differentiable(args[i]) && Differentiable(ds[i])
    ensures Differentiable(DiffRule(k, args, ds))
    ensures MentionsOnlyOperands(DiffRule(k, args, ds), args, ds)
  {
    if k == Sumexp || k == Lse {
      SumexpRuleInvariants(k, args, ds);
    } else if IsSumsq(k) || IsDistance(k) {
      SumsqRuleInvariants(k, args, ds);
    } else {
      SimpleRuleMentions(k, args, ds);
    }
  }

  lemma SumexpRuleInvariants(k: OpKind, args: seq<Expr>, ds: seq<Expr>)
    requires k == Sumexp || k == Lse
    requires |ds| == |args| >= 1
    requires forall i :: 0 <= i < |args| ==> Differentiable(args[i]) && Differentiable(ds[i])
    ensures Differentiable(DiffRule(k, args, ds))
    ensures MentionsOnlyOperands(DiffRule(k, args, ds), args, ds)
  {
    DiffedSumexpInvariants(args, ds);
    if k == Lse {
      OperandsNode(Sumexp, args, ds);
      QuotientInvariants(DiffedSumexp(args, ds), Op(Sumexp, args), args, ds);
    }
  }

  lemma SumsqRuleInvariants(k: OpKind, args: seq<Expr>, ds: seq<Expr>)
    requires IsSumsq(k) || IsDistance(k)
    requires |ds| == |args| == Arity(k)
    requires forall i :: 0 <= i < |args| ==> Differentiable(args[i]) && Differentiable(ds[i])
    ensures Differentiable(DiffRule(k, args, ds))
    ensures MentionsOnlyOperands(DiffRule(k, args, ds), args, ds)
  {
    DiffedSumsqInvariants(args, ds);
    if IsDistance(k) {
      OperandsNode(k, args, ds);
      TwiceNode(Op(k, args), args, ds);
      QuotientInvariants(DiffedSumsq(args, ds), Times(Two(), Op(k, args)), args, ds);
    }
  }

  /** Every variable `e` mentions is mentioned by one of `args`. */
  predicate MentionsOnlyArgs(e: Expr, args: seq<Expr>) {
    forall n :: Mentions(e, n) ==> exists i :: 0 <= i < |args| && Mentions(args[i], n)
  }

  lemma OperandsNode(k: OpKind, args: seq<Expr>, ds: seq<Expr>)
    requires |ds| == |args|
    requires if Arity(k) == Variadic then |args| >= 1 else |args| == Arity(k)
    requires forall i :: 0 <= i < |args| ==> Differentiable(args[i])
    ensures Differentiable(Op(k, args)) && MentionsOnlyArgs(Op(k, args), args)
  {
  }

  lemma TwiceNode(e: Expr, args: seq<Expr>, ds: seq<Expr>)
    requires Differentiable(e) && MentionsOnlyArgs(e, args)
    ensures Differentiable(Times(Two(), e)) && MentionsOnlyArgs(Times(Two(), e), args)
  {
    forall n | Mentions(Times(Two(), e), n) ensures exists i :: 0 <= i < |args| && Mentions(args[i], n) {
      assert Mentions(Two(), n) || Mentions(e, n);
    }
  }

  lemma QuotientInvariants(num: Expr, den: Expr, args: seq<Expr>, ds: seq<Expr>)
    requires |ds| == |args|
    requires Differentiable(num) && MentionsOnlyOperands(num, args, ds)
    requires Differentiable(den) && MentionsOnlyArgs(den, args)
    ensures Differentiable(Over(num, den)) && MentionsOnlyOperands(Over(num, den), args, ds)
  {
    forall n | Mentions(Over(num, den), n) ensures exists i :: 0 <= i < |args| && (Mentions(args[i], n) || Mentions(ds[i], n)) {
      assert Mentions(num, n) || Mentions(den, n);
    }
  }

  /** The variables of a binary node are those of its two operands. */
  lemma BinaryMentions(k: OpKind, a: Expr, b: Expr, n: Name)
    ensures Mentions(Op(k, [a, b]), n) <==> Mentions(a, n) || Mentions(b, n)
  {
    if Mentions(a, n) { assert [a, b][0] == a; }
    if Mentions(b, n) { assert [a, b][1] == b; }
  }

  lemma SimpleRuleMentions(k: OpKind, args: seq<Expr>, ds: seq<Expr>)
    requires k == Negate || k == Add || k == Subtract || k == Multiply || k == Divide
    requires |ds| == |args| == Arity(k)
    requires forall i :: 0 <= i < |args| ==> Differentiable(args[i]) && Differentiable(ds[i])
    ensures Differentiable(DiffRule(k, args, ds))
    ensures MentionsOnlyOperands(DiffRule(k, args, ds), args, ds)
  {
    var r := DiffRule(k, args, ds);
    if k == Negate {
      forall n | Mentions(r, n) ensures exists i :: 0 <= i < |args| && (Mentions(args[i], n) || Mentions(ds[i], n)) {
        assert Mentions(ds[0], n);
      }
    } else {
      var a0, a1, d0, d1 := args[0], args[1], ds[0], ds[1];
      forall n | Mentions(r, n) ensures Mentions(a0, n) || Mentions(a1, n) || Mentions(d0, n) || Mentions(d1, n) {
        if k == Add || k == Subtract {
          BinaryMentions(k, d0, d1, n);
        } else if k == Multiply {
          BinaryMentions(Add, Times(a0, d1), Times(d0, a1), n);
          BinaryMentions(Multiply, a0, d1, n);
          BinaryMentions(Multiply, d0, a1, n);
        } else {
          BinaryMentions(Divide, Minus(Times(d0, a1), Times(a0, d1)), Times(a1, a1), n);
          BinaryMentions(Subtract, Times(d0, a1), Times(a0, d1), n);
          BinaryMentions(Multiply, d0, a1, n);
          BinaryMentions(Multiply, a0, d1, n);
          BinaryMentions(Multiply, a1, a1, n);
        }
      }
    }
  }

  // ---------------------------------------------------------------- the output shapes

  /** A reference for the n-ary rules: the terms summed by a left-nested
      chain of `Add` nodes, the first term innermost. */
  function AddChain(terms: seq<Expr>): Expr
    requires |terms| >= 1
  {
    if |terms| == 1 then terms[0] else Plus(AddChain(terms[..|terms| - 1]), terms[|terms| - 1])
  }

  lemma {:induction false} ChainMergeFirst(a: Expr, b: Expr, rest: seq<Expr>)
    ensures AddChain([Plus(a, b)] + rest) == AddChain([a, b] + rest)
    decreases |rest|
  {
    if rest == [] {
      assert [a, b][..1] == [a];
    } else {
      var xs := [Plus(a, b)] + rest;
      var ys := [a, b] + rest;
      assert xs[..|xs| - 1] == [Plus(a, b)] + rest[..|rest| - 1];
      assert ys[..|ys| - 1] == [a, b] + rest[..|rest| - 1];
      ChainMergeFirst(a, b, rest[..|rest| - 1]);
    }
  }

  /** `reduce` with `Add` builds exactly the left-nested chain of the
      accumulator followed by the terms. */
  lemma {:induction false} ReduceAddIsChain(acc: Expr, terms: seq<Expr>)
    ensures ReduceAdd(acc, terms) == AddChain([acc] + terms)
    decreases |terms|
  {
    if terms != [] {
      ReduceAddIsChain(Plus(acc, terms[0]), terms[1..]);
      ChainMergeFirst(acc, terms[0], terms[1..]);
      assert [acc, terms[0]] + terms[1..] == [acc] + terms;
    }
  }

  /** The sumexp rule: the derivative of `sumexp(a0 .. an)` is the sum, in
      argument order, of `sumexp(ai) * ai'`. */
  lemma DiffSumexpIsSum(args: seq<Expr>, v: string)
    requires Differentiable(Op(Sumexp, args))
    ensures |args| >= 1
    ensures Diff(Op(Sumexp, args), v) == AddChain(SumexpTerms(args, Derivatives(args, v)))
  {
    var terms := SumexpTerms(args, Derivatives(args, v));
    ReduceAddIsChain(terms[0], terms[1..]);
    assert [terms[0]] + terms[1..] == terms;
  }

  /** The log-sum-exp rule: the sumexp derivative over the sumexp of the same arguments. */
  lemma DiffLseIsQuotient(args: seq<Expr>, v: string)
    requires Differentiable(Op(Lse, args))
    ensures Differentiable(Op(Sumexp, args))
    ensures Diff(Op(Lse, args), v) == Over(Diff(Op(Sumexp, args), v), Op(Sumexp, args))
  {
  }

  /** The sum-of-squares rule: twice the sum, in argument order, of `ai * ai'`. */
  lemma DiffSumsqIsSum(k: OpKind, args: seq<Expr>, v: string)
    requires IsSumsq(k) && Differentiable(Op(k, args))
    ensures |args| >= 2
    ensures Diff(Op(k, args), v) == Times(Two(), AddChain(SquareTerms(args, Derivatives(args, v))))
  {
    SumsqIsChain(args, Derivatives(args, v));
  }

  lemma SumsqIsChain(args: seq<Expr>, ds: seq<Expr>)
    requires |args| == |ds| >= 2
    ensures DiffedSumsq(args, ds) == Times(Two(), AddChain(SquareTerms(args, ds)))
  {
    var terms := SquareTerms(args, ds);
    ReduceAddIsChain(Plus(terms[0], terms[1]), terms[2..]);
    ChainMergeFirst(terms[0], terms[1], terms[2..]);
    assert [terms[0], terms[1]] + terms[2..] == terms;
  }

  /** The sum-of-squares operator of the same width as a distance operator. */
  function SumsqOf(k: OpKind): OpKind
    requires IsDistance(k)
  {
    match k
    case Distance2 => Sumsq2
    case Distance3 => Sumsq3
    case Distance4 => Sumsq4
    case Distance5 => Sumsq5
  }

  /** The distance rule: the derivative of the sum of squares of the same
      arguments, over twice the original, undifferentiated distance node. */
  lemma DiffDistanceIsQuotient(k: OpKind, args: seq<Expr>, v: string)
    requires IsDistance(k) && Differentiable(Op(k, args))
    ensures Differentiable(Op(SumsqOf(k), args))
    ensures Diff(Op(k, args), v) == Over(Diff(Op(SumsqOf(k), args), v), Times(Two(), Op(k, args)))
  {
    SameWidth(k, args);
    DistanceRule(k, args, Derivatives(args, v));
  }

  lemma SameWidth(k: OpKind, args: seq<Expr>)
    requires IsDistance(k) && Differentiable(Op(k, args))
    ensures Arity(SumsqOf(k)) == Arity(k) == |args| && Differentiable(Op(SumsqOf(k), args))
  {
  }

  lemma DistanceRule(k: OpKind, args: seq<Expr>, ds: seq<Expr>)
    requires IsDistance(k) && |ds| == |args| == Arity(k)
    ensures DiffRule(k, args, ds) == Over(DiffRule(SumsqOf(k), args, ds), Times(Two(), Op(k, args)))
  {
  }

  /** The leaf rules: a constant gives 0; a variable gives 1 when it is the
      one differentiated by and 0 otherwise. */
  lemma DiffLeaves(c: Number, n: Name, v: string)
    ensures Diff(Const(c), v) == Const(Int(0))
    ensures v == NameText(n) ==> Diff(Var(n), v) == Const(Int(1))
    ensures v != NameText(n) ==> Diff(Var(n), v) == Const(Int(0))
  {
  }

  /** Negation, addition and subtraction apply the same operator to the
      derivatives of the operands. */
  lemma DiffLinear(a: Expr, b: Expr, v: string)
    requires Differentiable(a) && Differentiable(b)
    ensures Diff(Op(Negate, [a]), v) == Op(Negate, [Diff(a, v)])
    ensures Diff(Plus(a, b), v) == Plus(Diff(a, v), Diff(b, v))
    ensures Diff(Minus(a, b), v) == Minus(Diff(a, v), Diff(b, v))
  {
  }

  /** The product and quotient rules, built on the original operands `a`
      and `b` and their derivatives. */
  lemma DiffProductQuotient(a: Expr, b: Expr, v: string)
    requires Differentiable(a) && Differentiable(b)
    ensures Diff(Times(a, b), v) == Plus(Times(a, Diff(b, v)), Times(Diff(a, v), b))
    ensures Diff(Over(a, b), v) == Over(Minus(Times(Diff(a, v), b), Times(a, Diff(b, v))), Times(b, b))
  {
  }
}
