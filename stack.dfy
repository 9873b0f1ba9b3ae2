/** The bracket-free parser `parse` (objectExpression.js:392-413): it reads
    the `toString()` notation (operands first, operator last) with a stack
    and no error reporting at all. */
module StackParsing {
  import opened Text
  import opened Expressions
  import opened Rendering

  // ---------------------------------------------------------------- splice

  /** The host's clamping of a relative start index: a negative start counts
      from the end (but not before 0), a start past the end is the end. */
  function ClampStart(start: int, len: nat): (r: nat)
    ensures r <= len
    ensures 0 <= start <= len ==> r == start
    ensures start < 0 ==> r == if len + start < 0 then 0 else len + start
  {
    if start < 0 then (if len + start < 0 then 0 else len + start)
    else if start > len then len
    else start
  }

  /** `stack.splice(stack.length - n, n)`: the entries left behind and the
      entries removed, with the host's clamping of both start and count. What
      is removed is always a suffix of the stack: the top `n` entries when
      there are that many, none when `n` is negative (a variadic operator),
      and only the top `min(n - len, len)` entries on underflow. */
  function SpliceTop(stack: seq<Expr>, n: int): (r: (seq<Expr>, seq<Expr>))
    ensures r.0 + r.1 == stack
    ensures 0 <= n <= |stack| ==> |r.1| == n
    ensures n < 0 ==> r.1 == []
    ensures |stack| < n ==> |r.0| == if 2 * |stack| < n then 0 else 2 * |stack| - n
  {
    var len := |stack|;
    var start := ClampStart(len - n, len);
    var count := if n < 0 then 0 else if n > len - start then len - start else n;
    (stack[..start] + stack[start + count..], stack[start..start + count])
  }

  // ---------------------------------------------------------------- one token

  /** One turn of the loop of objectExpression.js:396-411: an operator takes
      its operands off the top of the stack and pushes the node its builder
      makes of them; a variable pushes its node; anything else pushes
      `Const(Number(token))`. */
  function StackStep(stack: seq<Expr>, token: string): (r: seq<Expr>)
    ensures 1 <= |r| <= |stack| + 1
  {
    match OperatorOf(token)
    case Some(k) =>
      var (rest, taken) := SpliceTop(stack, Arity(k));
      rest + [Build(k, taken)]
    case None =>
      match VariableOf(token)
      case Some(n) => stack + [Var(n)]
      case None => stack + [Const(NumberOf(token))]
  }

  /** The stack after the loop has read every token of `toks`. */
  function StackRun(stack: seq<Expr>, toks: seq<string>): seq<Expr>
    decreases |toks|
  {
    if toks == [] then stack else StackRun(StackStep(stack, toks[0]), toks[1..])
  }

  /** Every token leaves at least one entry on the stack, so the stack ends
      empty only when it started empty and no token was read. */
  lemma {:induction false} RunLeavesEntries(stack: seq<Expr>, toks: seq<string>)
    ensures toks != [] ==> |StackRun(stack, toks)| >= 1
    ensures toks == [] ==> StackRun(stack, toks) == stack
    decreases |toks|
  {
    if toks != [] {
      RunLeavesEntries(StackStep(stack, toks[0]), toks[1..]);
    }
  }

  /** `parse(str)`: the top of the stack once every token is read, `None` for
      the `undefined` that `pop()` gives on an empty stack. What it returns
      for a rendering is `StackRoundTrip` and `LastTreeWins`. */
  function StackParse(s: string): (r: Option<Expr>)
    ensures r.None? <==> SpaceTokens(s) == []
  {
    RunLeavesEntries([], SpaceTokens(s));
    var stack := StackRun([], SpaceTokens(s));
    if stack == [] then None else Some(stack[|stack| - 1])
  }

  /** `parse(str)` as the source runs it: one pass over the tokens with a stack. */
  method ParseStack(s: string) returns (r: Option<Expr>)
    ensures r == StackParse(s)
  {
    var tokens := SpaceTokens(s);
    var stack: seq<Expr> := [];
    var i := 0;
    ghost var whole := StackRun([], tokens);
    assert tokens[0..] == tokens;
    while i < |tokens|
      invariant 0 <= i <= |tokens|
      invariant StackRun(stack, tokens[i..]) == whole
    {
      var token := tokens[i];
      ghost var before := stack;
      var op := OperatorOf(token);
      if op.Some? {
        var (rest, taken) := SpliceTop(stack, Arity(op.value));
        stack := rest + [Build(op.value, taken)];
        OperatorStep(before, token, op.value);
        assert stack == StackStep(before, token);
      } else {
        var v := VariableOf(token);
        if v.Some? {
          stack := stack + [Var(v.value)];
        } else {
          stack := stack + [Const(NumberOf(token))];
        }
        LeafStep(before, token);
        assert stack == StackStep(before, token);
      }
      RunAdvance(before, stack, tokens, i, whole);
      i := i + 1;
    }
    assert tokens[i..] == [];
    if stack == [] {
      r := None;
    } else {
      r := Some(stack[|stack| - 1]);
    }
  }

  lemma OperatorStep(stack: seq<Expr>, token: string, k: OpKind)
    requires OperatorOf(token) == Some(k)
    ensures StackStep(stack, token) == SpliceTop(stack, Arity(k)).0 + [Build(k, SpliceTop(stack, Arity(k)).1)]
  {
  }

  lemma LeafStep(stack: seq<Expr>, token: string)
    requires OperatorOf(token).None?
    ensures VariableOf(token).Some? ==> StackStep(stack, token) == stack + [Var(VariableOf(token).value)]
    ensures VariableOf(token).None? ==> StackStep(stack, token) == stack + [Const(NumberOf(token))]
  {
  }

  /** Reading the token at `i` moves the loop's invariant one token on. */
  lemma RunAdvance(before: seq<Expr>, after: seq<Expr>, toks: seq<string>, i: nat, whole: seq<Expr>)
    requires i < |toks| && StackRun(before, toks[i..]) == whole && after == StackStep(before, toks[i])
    ensures StackRun(after, toks[i + 1..]) == whole
  {
    assert toks[i..][0] == toks[i] && toks[i..][1..] == toks[i + 1..];
  }

  // ---------------------------------------------------------------- what one token does

  /** With enough operands on the stack, a fixed-arity operator replaces the
      top `Arity(k)` entries, in their order, by its node. */
  lemma OperatorTakesTop(stack: seq<Expr>, k: OpKind)
    requires 0 <= Arity(k) <= |stack|
    ensures StackStep(stack, Sign(k)) == stack[..|stack| - Arity(k)] + [Op(k, stack[|stack| - Arity(k)..])]
  {
    OperatorOfSign(Sign(k), k);
    var (rest, taken) := SpliceTop(stack, Arity(k));
    assert stack == rest + taken;
    assert rest == stack[..|stack| - Arity(k)];
    BuildExact(k, taken);
  }

  /** A variadic operator takes nothing: `splice(length + 1, -1)` removes no
      entry, so `sumexp` and `lse` always push an empty node. */
  lemma VariadicTakesNothing(stack: seq<Expr>, k: OpKind)
    requires Arity(k) == Variadic
    ensures StackStep(stack, Sign(k)) == stack + [Op(k, [])]
  {
    OperatorOfSign(Sign(k), k);
    BuildExact(k, []);
  }

  /** Underflow is not reported. A fixed-arity operator with too few entries
      below it hands its builder fewer operands, and when there are at least
      half as many entries as it wants, it takes only the top
      `Arity(k) - |stack|` of them and leaves the rest. A rest-parameter
      builder then makes a short node (`x y distance3` leaves `x` and
      `distance3` of `y` alone); a named-parameter builder pads the node with
      `undefined` (`NamedUnderflowPads`). */
  lemma OperatorUnderflow(stack: seq<Expr>, k: OpKind)
    requires |stack| < Arity(k)
    ensures 2 * |stack| < Arity(k) ==> StackStep(stack, Sign(k)) == [Build(k, stack)]
    ensures 2 * |stack| >= Arity(k) ==>
      StackStep(stack, Sign(k)) == stack[..2 * |stack| - Arity(k)] + [Build(k, stack[2 * |stack| - Arity(k)..])]
  {
    OperatorOfSign(Sign(k), k);
    var (rest, taken) := SpliceTop(stack, Arity(k));
    assert stack == rest + taken;
    assert rest == stack[..|rest|];
  }

  /** `+ - * /` and `negate` on too short a stack take all of it and push one
      node of full arity whose missing operands are `undefined`: `x +` leaves
      `Add(x, undefined)`, a node no parser accepts and `diff` cannot handle. */
  lemma NamedUnderflowPads(stack: seq<Expr>, k: OpKind)
    requires NamedBuilder(k) && |stack| < Arity(k)
    ensures var r := StackStep(stack, Sign(k));
      |r| == 1 && r[0] == Build(k, stack) && |r[0].args| == Arity(k)
      && r[0].args[..|stack|] == stack && r[0].args[|stack|] == Undefined
    ensures !StackShaped(StackStep(stack, Sign(k))[0])
  {
    OperatorUnderflow(stack, k);
    if 2 * |stack| >= Arity(k) {
      assert stack[..2 * |stack| - Arity(k)] == [];
      assert stack[2 * |stack| - Arity(k)..] == stack;
    }
    BuildShort(k, stack);
  }

  /** `x +` leaves `Add(x, undefined)`. */
  lemma AddUnderflow()
    ensures StackStep([Var(X)], "+") == [Op(Add, [Var(X), Undefined])]
  {
    NamedUnderflowPads([Var(X)], Add);
    var node := StackStep([Var(X)], Sign(Add))[0];
    assert |node.args| == 2 && node.args[0] == [Var(X)][0] && node.args[1] == Undefined;
    assert node.args == [Var(X), Undefined];
  }

  /** A lone `negate` leaves `Negate(undefined)`. */
  lemma NegateUnderflow()
    ensures StackStep([], "negate") == [Op(Negate, [Undefined])]
  {
    NamedUnderflowPads([], Negate);
    var node := StackStep([], Sign(Negate))[0];
    assert |node.args| == 1 && node.args[0] == Undefined;
    assert node.args == [Undefined];
  }

  /** `x y distance3` leaves `x` and `distance3` of `y` alone. */
  lemma DistanceUnderflow()
    ensures StackStep([Var(X), Var(Y)], "distance3") == [Var(X), Op(Distance3, [Var(Y)])]
  {
    var stack := [Var(X), Var(Y)];
    assert Arity(Distance3) == 3 && Sign(Distance3) == "distance3";
    OperatorUnderflow(stack, Distance3);
    assert stack[1..] == [Var(Y)] && stack[..1] == [Var(X)];
    BuildExact(Distance3, [Var(Y)]);
  }

  /** A variable's name pushes that variable. */
  lemma VariablePushed(stack: seq<Expr>, n: Name)
    ensures StackStep(stack, NameText(n)) == stack + [Var(n)]
  {
    NameIsLeaf(n);
  }

  /** Any other token pushes a constant, `NaN` when it is not numeric. */
  lemma OtherTokenPushed(stack: seq<Expr>, t: string)
    requires OperatorOf(t).None? && VariableOf(t).None?
    ensures IsNumeric(t) ==> StackStep(stack, t) == stack + [Const(Int(ParseNum(t)))]
    ensures !IsNumeric(t) ==> StackStep(stack, t) == stack + [Const(NaN)]
  {
  }

  // ---------------------------------------------------------------- whole renderings

  /** Reading `a` then `b` is reading `a + b`. */
  lemma {:induction false} StackRunConcat(stack: seq<Expr>, a: seq<string>, b: seq<string>)
    ensures StackRun(stack, a + b) == StackRun(StackRun(stack, a), b)
    decreases |a|
  {
    if a != [] {
      assert (a + b)[0] == a[0] && (a + b)[1..] == a[1..] + b;
      StackRunConcat(StackStep(stack, a[0]), a[1..], b);
    } else {
      assert a + b == b;
    }
  }

  /** The tokens of the arguments' `toString()`, one after the other. */
  function BareBlock(args: seq<Expr>): seq<string> {
    Flatten(seq(|args|, i requires 0 <= i < |args| => BareTokens(args[i])))
  }

  lemma BareBlockCons(args: seq<Expr>)
    requires |args| > 0
    ensures BareBlock(args) == BareTokens(args[0]) + BareBlock(args[1..])
  {
    var ts := seq(|args|, i requires 0 <= i < |args| => BareTokens(args[i]));
    var us := seq(|args[1..]|, i requires 0 <= i < |args[1..]| => BareTokens(args[1..][i]));
    forall i | 0 <= i < |us| ensures ts[1..][i] == us[i] {
      assert args[1..][i] == args[i + 1];
    }
    assert ts[1..] == us;
  }

  /** A constant's literal pushes that constant back, `NaN` included. */
  lemma ConstPushed(stack: seq<Expr>, v: Number)
    ensures StackStep(stack, NumToString(v)) == stack + [Const(v)]
  {
    NumberIsLeaf(v);
    match v
    case Int(i) => NumberRoundTrip(i);
    case NaN => assert !IsDigit('N');
  }

  /** The tokens of a stack-shaped tree push exactly that tree, whatever lies
      below it on the stack. */
  lemma {:induction false} PushesTree(stack: seq<Expr>, t: Expr)
    requires StackShaped(t)
    ensures StackRun(stack, BareTokens(t)) == stack + [t]
    decreases t, 1
  {
    match t
    case Const(v) => ConstPushed(stack, v);
    case Var(n) => VariablePushed(stack, n);
    case Op(k, args) =>
      PushesArgs(stack, args);
      StackRunConcat(stack, BareBlock(args), [Sign(k)]);
      if Arity(k) == Variadic {
        VariadicTakesNothing(stack, k);
      } else {
        OperatorTakesTop(stack + args, k);
        assert (stack + args)[..|stack + args| - Arity(k)] == stack;
        assert (stack + args)[|stack + args| - Arity(k)..] == args;
      }
  }

  /** The tokens of a run of stack-shaped trees push them, in order. */
  lemma {:induction false} PushesArgs(stack: seq<Expr>, args: seq<Expr>)
    requires forall i :: 0 <= i < |args| ==> StackShaped(args[i])
    ensures StackRun(stack, BareBlock(args)) == stack + args
    decreases args
  {
    if args != [] {
      BareBlockCons(args);
      PushesTree(stack, args[0]);
      PushesArgs(stack + [args[0]], args[1..]);
      PushThenRest(stack, args[0], args[1..], BareTokens(args[0]), BareBlock(args[1..]));
      ConsAppend(stack, args);
    }
  }

  lemma ConsAppend<T>(s: seq<T>, xs: seq<T>)
    requires |xs| > 0
    ensures s + [xs[0]] + xs[1..] == s + xs
  {
    assert [xs[0]] + xs[1..] == xs;
  }

  lemma PushThenRest(stack: seq<Expr>, x: Expr, rest: seq<Expr>, a: seq<string>, b: seq<string>)
    requires StackRun(stack, a) == stack + [x]
    requires StackRun(stack + [x], b) == stack + [x] + rest
    ensures StackRun(stack, a + b) == stack + [x] + rest
  {
    StackRunConcat(stack, a, b);
  }

  /** `parse(t.toString())` rebuilds `t` for every tree whose fixed-arity
      nodes are full and whose variadic nodes are empty. */
  lemma StackRoundTrip(t: Expr)
    requires StackShaped(t)
    ensures StackParse(ToString(t)) == Some(t)
  {
    SplitToString(t);
    PushesTree([], t);
  }

  /** Trees already on the stack are left alone by the next tree's tokens, so
      `pop()` returns only the last complete expression of the input. */
  lemma LastTreeWins(t: Expr, u: Expr)
    requires StackShaped(t) && StackShaped(u)
    ensures StackRun([], BareTokens(t) + BareTokens(u)) == [t, u]
  {
    var a, b := BareTokens(t), BareTokens(u);
    StackRunConcat([], a, b);
    PushesTree([], t);
    assert StackRun([], a) == [t];
    PushesTree([t], u);
    assert StackRun([t], b) == [t] + [u];
  }
}
