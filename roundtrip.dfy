/** What the bracketed parsers do with the renderings and with malformed
    input: `parsePrefix(t.prefix())` and `parsePostfix(t.postfix())` give `t`
    back (objectExpression.js:279-339 against objectExpression.js:14-19,
    46-51, 70-77), leftover input is refused, and each malformed input gets
    the error the code raises. */
module ParseProperties {
  import opened Text
  import opened Expressions
  import opened Rendering
  import opened Parsing

  /** The tokens of a run of arguments written one after another. */
  function PrefixBlock(args: seq<Expr>): seq<string> {
    Flatten(seq(|args|, i requires 0 <= i < |args| => PrefixTokens(args[i])))
  }

  function PostfixBlock(args: seq<Expr>): seq<string> {
    Flatten(seq(|args|, i requires 0 <= i < |args| => PostfixTokens(args[i])))
  }

  lemma PrefixBlockCons(args: seq<Expr>)
    requires |args| > 0
    ensures PrefixBlock(args) == PrefixTokens(args[0]) + PrefixBlock(args[1..])
  {
    var ts := seq(|args|, i requires 0 <= i < |args| => PrefixTokens(args[i]));
    var us := seq(|args[1..]|, i requires 0 <= i < |args[1..]| => PrefixTokens(args[1..][i]));
    forall i | 0 <= i < |us| ensures ts[1..][i] == us[i] {
      assert args[1..][i] == args[i + 1];
    }
    assert ts[1..] == us;
  }

  lemma PostfixBlockCons(args: seq<Expr>)
    requires |args| > 0
    ensures PostfixBlock(args) == PostfixTokens(args[0]) + PostfixBlock(args[1..])
  {
    var ts := seq(|args|, i requires 0 <= i < |args| => PostfixTokens(args[i]));
    var us := seq(|args[1..]|, i requires 0 <= i < |args[1..]| => PostfixTokens(args[1..][i]));
    forall i | 0 <= i < |us| ensures ts[1..][i] == us[i] {
      assert args[1..][i] == args[i + 1];
    }
    assert ts[1..] == us;
  }

  /** A parse result that holds the value `v` and the cursor `p`. */
  predicate Yields<T(==)>(r: Result<(T, nat)>, v: T, p: int) {
    r.Ok? && r.value.0 == v && r.value.1 == p
  }

  // ---------------------------------------------------------------- token windows

  /** `toks` holds `w` from cursor `p` on. */
  predicate Window(toks: seq<string>, p: nat, w: seq<string>) {
    p + |w| <= |toks| && toks[p..p + |w|] == w
  }

  /** A window that holds `a + b` holds `a` and then `b`. */
  lemma WindowSplit(toks: seq<string>, p: nat, a: seq<string>, b: seq<string>)
    requires Window(toks, p, a + b)
    ensures Window(toks, p, a) && Window(toks, p + |a|, b)
  {
    assert toks[p..p + |a|] == toks[p..p + |a| + |b|][..|a|];
    assert toks[p + |a|..p + |a| + |b|] == toks[p..p + |a| + |b|][|a|..];
  }

  /** A window holding `whole`, which is `head + more`, holds `head` and then `more`. */
  lemma WindowCons(toks: seq<string>, p: nat, whole: seq<string>, head: seq<string>, more: seq<string>)
    requires whole == head + more && Window(toks, p, whole)
    ensures Window(toks, p, head) && Window(toks, p + |head|, more) && |whole| == |head| + |more|
  {
    WindowSplit(toks, p, head, more);
  }

  /** The first token of a window. */
  lemma WindowHead(toks: seq<string>, p: nat, w: seq<string>)
    requires Window(toks, p, w) && |w| > 0
    ensures toks[p] == w[0]
  {
    assert toks[p..p + |w|][0] == toks[p];
  }

  /** A token list laid out as `a`, then `b`, then `c`. */
  lemma Layout(toks: seq<string>, a: seq<string>, b: seq<string>, c: seq<string>)
    requires toks == a + b + c
    ensures Window(toks, |a|, b) && |toks| == |a| + |b| + |c|
    ensures c != [] ==> toks[|a| + |b|] == c[0]
  {
    assert toks[|a|..|a| + |b|] == b;
  }

  /** A window holding `[a, b] + mid + [c]`. */
  lemma PrefixFrame(toks: seq<string>, pos: nat, w: seq<string>, a: string, b: string, mid: seq<string>, c: string)
    requires w == [a, b] + mid + [c] && Window(toks, pos, w)
    ensures pos + 2 + |mid| < |toks| && toks[pos] == a && toks[pos + 1] == b && toks[pos + 2 + |mid|] == c
    ensures Window(toks, pos + 2, mid) && |w| == |mid| + 3
  {
    assert w[0] == a && w[1] == b && w[2 + |mid|] == c;
    assert toks[pos..pos + |w|][0] == toks[pos];
    assert toks[pos..pos + |w|][1] == toks[pos + 1];
    assert toks[pos..pos + |w|][2 + |mid|] == toks[pos + 2 + |mid|];
    forall i | 0 <= i < |mid|
      ensures toks[pos + 2 + i] == mid[i]
    {
      assert toks[pos..pos + |w|][2 + i] == w[2 + i];
    }
    assert toks[pos + 2..pos + 2 + |mid|] == mid;
  }

  /** A window holding `[a] + mid + [b, c]`. */
  lemma PostfixFrame(toks: seq<string>, pos: nat, w: seq<string>, a: string, mid: seq<string>, b: string, c: string)
    requires w == [a] + mid + [b, c] && Window(toks, pos, w)
    ensures pos + 2 + |mid| < |toks| && toks[pos] == a && toks[pos + 1 + |mid|] == b && toks[pos + 2 + |mid|] == c
    ensures Window(toks, pos + 1, mid) && |w| == |mid| + 3
  {
    assert w[0] == a && w[1 + |mid|] == b && w[2 + |mid|] == c;
    assert toks[pos..pos + |w|][0] == toks[pos];
    assert toks[pos..pos + |w|][1 + |mid|] == toks[pos + 1 + |mid|];
    assert toks[pos..pos + |w|][2 + |mid|] == toks[pos + 2 + |mid|];
    forall i | 0 <= i < |mid|
      ensures toks[pos + 1 + i] == mid[i]
    {
      assert toks[pos..pos + |w|][1 + i] == w[1 + i];
    }
    assert toks[pos + 1..pos + 1 + |mid|] == mid;
  }

  /** The prefix tokens of the parseable tree `t` stand at cursor `p`. */
  predicate PrefixAt(t: Expr, toks: seq<string>, p: nat) {
    Parseable(t) && Window(toks, p, PrefixTokens(t))
  }

  /** The prefix tokens of the parseable trees `rest` stand at cursor `p`. */
  predicate PrefixRun(rest: seq<Expr>, toks: seq<string>, p: nat) {
    AllParseable(rest) && Window(toks, p, PrefixBlock(rest))
  }

  predicate PostfixAt(t: Expr, toks: seq<string>, p: nat) {
    Parseable(t) && Window(toks, p, PostfixTokens(t))
  }

  predicate PostfixRun(rest: seq<Expr>, toks: seq<string>, p: nat) {
    AllParseable(rest) && Window(toks, p, PostfixBlock(rest))
  }

  /** A leaf token parses to its leaf, in either notation. */
  lemma LeafElement(b: Brackets, t: Expr, toks: seq<string>, pos: nat)
    requires Parseable(t) && !t.Op?
    requires pos < |toks| && toks[pos] == LeafText(t)
    ensures Yields(Element(b, toks, pos), t, pos + 1)
  {
    match t
    case Var(n) => NameIsLeaf(n);
    case Const(v) => NumberIsLeaf(v); NumberRoundTrip(v.value);
  }

  /** No arguments: nothing read, nothing added. */
  lemma EmptyRun(rest: seq<Expr>, acc: seq<Expr>)
    requires rest == []
    ensures acc + rest == acc && PrefixBlock(rest) == [] && PostfixBlock(rest) == []
  {
  }

  /** Appending the head of a run to what was read, then the rest, is
      appending the run. */
  lemma HeadThenRest(rest: seq<Expr>, acc: seq<Expr>)
    requires rest != [] && AllParseable(rest) && AllParseable(acc)
    ensures AllParseable(acc + [rest[0]]) && acc + [rest[0]] + rest[1..] == acc + rest
  {
    assert rest == [rest[0]] + rest[1..];
    assert acc + [rest[0]] + rest[1..] == acc + ([rest[0]] + rest[1..]);
  }

  // ---------------------------------------------------------------- prefix

  /** Reading the head of a run: the head's tokens come first, the rest's after. */
  lemma PrefixStep(rest: seq<Expr>, toks: seq<string>, p: nat, acc: seq<Expr>) returns (q: nat)
    requires rest != [] && PrefixRun(rest, toks, p) && AllParseable(acc)
    ensures PrefixAt(rest[0], toks, p) && PrefixRun(rest[1..], toks, q)
    ensures AllParseable(acc + [rest[0]]) && acc + [rest[0]] + rest[1..] == acc + rest
    ensures q == p + |PrefixTokens(rest[0])| && q + |PrefixBlock(rest[1..])| == p + |PrefixBlock(rest)|
    ensures p < |toks| && (toks[p] == "(" || IsLeafToken(toks[p]))
  {
    q := p + |PrefixTokens(rest[0])|;
    PrefixRunCons(rest, toks, p);
    WindowHead(toks, p, PrefixTokens(rest[0]));
    FirstToken(rest[0]);
    HeadThenRest(rest, acc);
  }

  lemma PrefixRunCons(rest: seq<Expr>, toks: seq<string>, p: nat)
    requires rest != [] && PrefixRun(rest, toks, p)
    ensures PrefixAt(rest[0], toks, p) && PrefixRun(rest[1..], toks, p + |PrefixTokens(rest[0])|)
    ensures |PrefixTokens(rest[0])| + |PrefixBlock(rest[1..])| == |PrefixBlock(rest)|
  {
    PrefixBlockCons(rest);
    WindowCons(toks, p, PrefixBlock(rest), PrefixTokens(rest[0]), PrefixBlock(rest[1..]));
    assert Parseable(rest[0]);
    assert AllParseable(rest[1..]) by {
      forall i | 0 <= i < |rest[1..]| ensures Parseable(rest[1..][i]) { assert rest[1..][i] == rest[i + 1]; }
    }
  }

  /** `m + n` turns of the `for` loop are `m` turns and then `n` more from
      where those stopped. */
  lemma {:induction false} FixedSplit(toks: seq<string>, p: nat, m: nat, n: nat, acc: seq<Expr>, acc2: seq<Expr>, e: nat)
    requires p <= |toks| && AllParseable(acc) && Yields(FixedOperands(toks, p, m, acc), acc2, e)
    ensures e <= |toks| && AllParseable(acc2)
    ensures FixedOperands(toks, p, m + n, acc) == FixedOperands(toks, e, n, acc2)
    decreases m
  {
    if m > 0 {
      var next := Element(PrefixBrackets, toks, p);
      FixedSplit(toks, next.value.1, m - 1, n, acc + [next.value.0], acc2, e);
    }
  }

  /** One turn of the `for` loop when the remaining reads succeed. */
  lemma FixedExact(toks: seq<string>, p: nat, rest: seq<Expr>, acc: seq<Expr>, q: nat, r: int)
    requires p <= |toks| && q <= |toks| && rest != [] && AllParseable(acc) && AllParseable(acc + [rest[0]])
    requires Yields(Element(PrefixBrackets, toks, p), rest[0], q)
    requires Yields(FixedOperands(toks, q, |rest[1..]|, acc + [rest[0]]), acc + [rest[0]] + rest[1..], r)
    ensures Yields(FixedOperands(toks, p, |rest|, acc), acc + [rest[0]] + rest[1..], r)
  {
  }

  /** The `for` loop with reads left at the end of the input or at a `)`. */
  lemma FixedStops(toks: seq<string>, p: nat, acc: seq<Expr>, n: nat)
    requires p <= |toks| && AllParseable(acc) && n > 0 && StopsVariadic(toks, p)
    ensures p == |toks| ==> FixedOperands(toks, p, n, acc) == Err(UnexpectedToken(None))
    ensures p < |toks| ==> FixedOperands(toks, p, n, acc) == Err(UnexpectedToken(Some(")")))
  {
    assert VariableOf(")").None? && !IsNumeric(")");
  }

  /** `e` is where the prefix `while` loop stops: the end, or a `)`. */
  predicate StopsVariadic(toks: seq<string>, e: int) {
    e == |toks| || (0 <= e < |toks| && toks[e] == ")")
  }

  /** `e` is where the postfix `while` loop stops: the end, or an operator. */
  predicate StopsPostfix(toks: seq<string>, e: int) {
    e == |toks| || (0 <= e < |toks| && OperatorOf(toks[e]).Some?)
  }

  /** One turn of the prefix `while` loop. */
  lemma VariadicCons(toks: seq<string>, p: nat, rest: seq<Expr>, acc: seq<Expr>, q: nat, r: int)
    requires p < |toks| && q <= |toks| && toks[p] != ")" && rest != [] && AllParseable(acc) && AllParseable(acc + [rest[0]])
    requires Yields(Element(PrefixBrackets, toks, p), rest[0], q)
    requires Yields(VariadicOperands(toks, q, acc + [rest[0]]), acc + [rest[0]] + rest[1..], r)
    ensures Yields(VariadicOperands(toks, p, acc), acc + [rest[0]] + rest[1..], r)
  {
  }

  /** The tokens of `(op a b ...)` around its argument block. */
  lemma PrefixOpen(k: OpKind, args: seq<Expr>, toks: seq<string>, pos: nat)
    requires PrefixAt(Op(k, args), toks, pos)
    ensures PrefixRun(args, toks, pos + 2) && (Arity(k) == Variadic || |args| == Arity(k))
    ensures pos + 2 + |PrefixBlock(args)| < |toks| && toks[pos] == "(" && toks[pos + 1] == Sign(k)
    ensures toks[pos + 2 + |PrefixBlock(args)|] == ")"
    ensures |PrefixTokens(Op(k, args))| == |PrefixBlock(args)| + 3
  {
    PrefixFrame(toks, pos, PrefixTokens(Op(k, args)), "(", Sign(k), PrefixBlock(args), ")");
  }

  /** With the operands read up to cursor `e`, `checkLength` decides the group. */
  lemma PrefixGroupClose(k: OpKind, args: seq<Expr>, toks: seq<string>, pos: nat, e: nat)
    requires pos + 2 <= e <= |toks| && toks[pos] == "(" && toks[pos + 1] == Sign(k)
    requires Arity(k) > -1 ==> Yields(FixedOperands(toks, pos + 2, Arity(k) as nat, []), args, e)
    requires Arity(k) <= -1 ==> Yields(VariadicOperands(toks, pos + 2, []), args, e)
    ensures CheckLength(toks, e).None? ==> Yields(Element(PrefixBrackets, toks, pos), Op(k, args), e + 1)
    ensures CheckLength(toks, e).Some? ==> Element(PrefixBrackets, toks, pos) == Err(CheckLength(toks, e).value)
  {
    OperatorOfSign(Sign(k), k);
    assert VariableOf("(").None? && !IsNumeric("(");
  }

  /** `(op` followed by the prefix tokens of `args`: when the operator takes
      them all, the group stands or falls with the token after them. */
  lemma PrefixGroupRead(k: OpKind, args: seq<Expr>, toks: seq<string>, pos: nat)
    requires pos + 2 <= |toks| && toks[pos] == "(" && toks[pos + 1] == Sign(k) && PrefixRun(args, toks, pos + 2)
    requires Arity(k) == Variadic || |args| == Arity(k)
    requires Arity(k) == Variadic ==> StopsVariadic(toks, pos + 2 + |PrefixBlock(args)|)
    ensures var e := pos + 2 + |PrefixBlock(args)|;
      e <= |toks| &&
      (CheckLength(toks, e).None? ==> Yields(Element(PrefixBrackets, toks, pos), Op(k, args), e + 1)) &&
      (CheckLength(toks, e).Some? ==> Element(PrefixBrackets, toks, pos) == Err(CheckLength(toks, e).value))
    decreases Op(k, args), 0
  {
    var e := pos + 2 + |PrefixBlock(args)|;
    if Arity(k) > -1 {
      PrefixFixed(args, toks, pos + 2, []);
    } else {
      PrefixVariadic(args, toks, pos + 2, []);
    }
    assert [] + args == args;
    PrefixGroupClose(k, args, toks, pos, e);
  }

  /** The tokens of `t.prefix()` at the cursor parse to `t` and are consumed
      exactly, whatever follows them. */
  lemma {:induction false} PrefixElement(t: Expr, toks: seq<string>, pos: nat)
    requires PrefixAt(t, toks, pos)
    ensures Yields(Element(PrefixBrackets, toks, pos), t, pos + |PrefixTokens(t)|)
    decreases t, 1
  {
    match t
    case Var(_) => WindowHead(toks, pos, PrefixTokens(t)); LeafElement(PrefixBrackets, t, toks, pos);
    case Const(_) => WindowHead(toks, pos, PrefixTokens(t)); LeafElement(PrefixBrackets, t, toks, pos);
    case Op(k, args) =>
      PrefixOpen(k, args, toks, pos);
      PrefixGroupRead(k, args, toks, pos);
  }

  /** The `for` loop over the prefix tokens of `rest`, `|rest|` times,
      reads `rest` exactly. */
  lemma {:induction false} PrefixFixed(rest: seq<Expr>, toks: seq<string>, p: nat, acc: seq<Expr>)
    requires PrefixRun(rest, toks, p) && AllParseable(acc)
    ensures Yields(FixedOperands(toks, p, |rest|, acc), acc + rest, p + |PrefixBlock(rest)|)
    decreases rest
  {
    if rest == [] {
      EmptyRun(rest, acc);
    } else {
      var q := PrefixStep(rest, toks, p, acc);
      PrefixElement(rest[0], toks, p);
      PrefixFixed(rest[1..], toks, q, acc + [rest[0]]);
      FixedExact(toks, p, rest, acc, q, q + |PrefixBlock(rest[1..])|);
    }
  }

  /** The variadic loop over the prefix tokens of `rest` reads all of `rest`,
      since no element starts with `)`, and stops where the loop stops. */
  lemma {:induction false} PrefixVariadic(rest: seq<Expr>, toks: seq<string>, p: nat, acc: seq<Expr>)
    requires PrefixRun(rest, toks, p) && AllParseable(acc)
    requires StopsVariadic(toks, p + |PrefixBlock(rest)|)
    ensures Yields(VariadicOperands(toks, p, acc), acc + rest, p + |PrefixBlock(rest)|)
    decreases rest
  {
    if rest == [] {
      EmptyRun(rest, acc);
    } else {
      var q := PrefixStep(rest, toks, p, acc);
      PrefixElement(rest[0], toks, p);
      PrefixVariadic(rest[1..], toks, q, acc + [rest[0]]);
      VariadicCons(toks, p, rest, acc, q, q + |PrefixBlock(rest[1..])|);
    }
  }

  // ---------------------------------------------------------------- postfix

  lemma PostfixStep(rest: seq<Expr>, toks: seq<string>, p: nat, acc: seq<Expr>) returns (q: nat)
    requires rest != [] && PostfixRun(rest, toks, p) && AllParseable(acc)
    ensures PostfixAt(rest[0], toks, p) && PostfixRun(rest[1..], toks, q)
    ensures AllParseable(acc + [rest[0]]) && acc + [rest[0]] + rest[1..] == acc + rest
    ensures q == p + |PostfixTokens(rest[0])| && q + |PostfixBlock(rest[1..])| == p + |PostfixBlock(rest)|
    ensures p < |toks| && OperatorOf(toks[p]).None?
  {
    q := p + |PostfixTokens(rest[0])|;
    PostfixRunCons(rest, toks, p);
    WindowHead(toks, p, PostfixTokens(rest[0]));
    FirstToken(rest[0]);
    HeadThenRest(rest, acc);
  }

  lemma PostfixRunCons(rest: seq<Expr>, toks: seq<string>, p: nat)
    requires rest != [] && PostfixRun(rest, toks, p)
    ensures PostfixAt(rest[0], toks, p) && PostfixRun(rest[1..], toks, p + |PostfixTokens(rest[0])|)
    ensures |PostfixTokens(rest[0])| + |PostfixBlock(rest[1..])| == |PostfixBlock(rest)|
  {
    PostfixBlockCons(rest);
    WindowCons(toks, p, PostfixBlock(rest), PostfixTokens(rest[0]), PostfixBlock(rest[1..]));
    assert Parseable(rest[0]);
    assert AllParseable(rest[1..]) by {
      forall i | 0 <= i < |rest[1..]| ensures Parseable(rest[1..][i]) { assert rest[1..][i] == rest[i + 1]; }
    }
  }

  /** One turn of the postfix `while` loop. */
  lemma PostfixCons(toks: seq<string>, p: nat, rest: seq<Expr>, acc: seq<Expr>, q: nat, r: int)
    requires p < |toks| && q <= |toks| && OperatorOf(toks[p]).None? && rest != [] && AllParseable(acc) && AllParseable(acc + [rest[0]])
    requires Yields(Element(PostfixBrackets, toks, p), rest[0], q)
    requires Yields(PostfixOperands(toks, q, acc + [rest[0]]), acc + [rest[0]] + rest[1..], r)
    ensures Yields(PostfixOperands(toks, p, acc), acc + [rest[0]] + rest[1..], r)
  {
  }

  /** The tokens of `(a b ... op)` around its argument block. */
  lemma PostfixOpen(k: OpKind, args: seq<Expr>, toks: seq<string>, pos: nat)
    requires PostfixAt(Op(k, args), toks, pos)
    ensures PostfixRun(args, toks, pos + 1) && (Arity(k) == Variadic || |args| == Arity(k))
    ensures pos + 2 + |PostfixBlock(args)| < |toks| && toks[pos] == "("
    ensures toks[pos + 1 + |PostfixBlock(args)|] == Sign(k) && toks[pos + 2 + |PostfixBlock(args)|] == ")"
    ensures |PostfixTokens(Op(k, args))| == |PostfixBlock(args)| + 3
  {
    PostfixFrame(toks, pos, PostfixTokens(Op(k, args)), "(", PostfixBlock(args), Sign(k), ")");
  }

  /** With the operands read up to the operator at cursor `e`, the arity
      check and then `checkLength` decide the group. */
  lemma PostfixGroupClose(k: OpKind, args: seq<Expr>, toks: seq<string>, pos: nat, e: nat)
    requires pos + 1 <= e < |toks| && toks[pos] == "(" && toks[e] == Sign(k)
    requires Yields(PostfixOperands(toks, pos + 1, []), args, e)
    ensures Arity(k) > 0 && |args| != Arity(k) ==> Element(PostfixBrackets, toks, pos) == Err(WrongNumberOfArguments(Arity(k), |args|))
    ensures (Arity(k) <= 0 || |args| == Arity(k)) && CheckLength(toks, e + 1).None? ==> Yields(Element(PostfixBrackets, toks, pos), Op(k, args), e + 2)
    ensures (Arity(k) <= 0 || |args| == Arity(k)) && CheckLength(toks, e + 1).Some? ==> Element(PostfixBrackets, toks, pos) == Err(CheckLength(toks, e + 1).value)
  {
    OperatorOfSign(Sign(k), k);
    assert VariableOf("(").None? && !IsNumeric("(");
  }

  /** `(` followed by the postfix tokens of `args` and the sign of `k`: the
      arity check, then the token after the sign, decide the group. */
  lemma PostfixGroupRead(k: OpKind, args: seq<Expr>, toks: seq<string>, pos: nat, e: nat)
    requires pos + 1 <= |toks| && toks[pos] == "(" && PostfixRun(args, toks, pos + 1)
    requires e == pos + 1 + |PostfixBlock(args)| && e < |toks| && toks[e] == Sign(k)
    ensures Arity(k) > 0 && |args| != Arity(k) ==> Element(PostfixBrackets, toks, pos) == Err(WrongNumberOfArguments(Arity(k), |args|))
    ensures (Arity(k) <= 0 || |args| == Arity(k)) && CheckLength(toks, e + 1).None? ==> Yields(Element(PostfixBrackets, toks, pos), Op(k, args), e + 2)
    ensures (Arity(k) <= 0 || |args| == Arity(k)) && CheckLength(toks, e + 1).Some? ==> Element(PostfixBrackets, toks, pos) == Err(CheckLength(toks, e + 1).value)
    decreases Op(k, args), 0
  {
    OperatorOfSign(Sign(k), k);
    PostfixOps(args, toks, pos + 1, []);
    assert [] + args == args;
    PostfixGroupClose(k, args, toks, pos, e);
  }

  /** The tokens of `t.postfix()` at the cursor parse to `t` and are consumed
      exactly, whatever follows them. */
  lemma {:induction false} PostfixElement(t: Expr, toks: seq<string>, pos: nat)
    requires PostfixAt(t, toks, pos)
    ensures Yields(Element(PostfixBrackets, toks, pos), t, pos + |PostfixTokens(t)|)
    decreases t, 1
  {
    match t
    case Var(_) => WindowHead(toks, pos, PostfixTokens(t)); LeafElement(PostfixBrackets, t, toks, pos);
    case Const(_) => WindowHead(toks, pos, PostfixTokens(t)); LeafElement(PostfixBrackets, t, toks, pos);
    case Op(k, args) =>
      PostfixOpen(k, args, toks, pos);
      var e := pos + 1 + |PostfixBlock(args)|;
      assert Arity(k) <= 0 || |args| == Arity(k);
      assert e + 1 < |toks| && toks[e + 1] == ")";
      assert CheckLength(toks, e + 1).None?;
      PostfixGroupRead(k, args, toks, pos, e);
  }

  /** The postfix loop over the postfix tokens of `rest` reads all of
      `rest`, since no element starts with an operator, and stops where the
      loop stops. */
  lemma {:induction false} PostfixOps(rest: seq<Expr>, toks: seq<string>, p: nat, acc: seq<Expr>)
    requires PostfixRun(rest, toks, p) && AllParseable(acc)
    requires StopsPostfix(toks, p + |PostfixBlock(rest)|)
    ensures Yields(PostfixOperands(toks, p, acc), acc + rest, p + |PostfixBlock(rest)|)
    decreases rest
  {
    if rest == [] {
      EmptyRun(rest, acc);
    } else {
      var q := PostfixStep(rest, toks, p, acc);
      PostfixElement(rest[0], toks, p);
      PostfixOps(rest[1..], toks, q, acc + [rest[0]]);
      PostfixCons(toks, p, rest, acc, q, q + |PostfixBlock(rest[1..])|);
    }
  }

  // ---------------------------------------------------------------- whole strings

  /** `parsePrefix(t.prefix())` is `t`, zero-argument `sumexp`/`lse` included. */
  lemma PrefixRoundTrip(t: Expr)
    requires Parseable(t)
    ensures Parse(PrefixBrackets, Prefix(t)) == Ok(t)
  {
    TokenizePrefix(t);
    var toks := PrefixTokens(t);
    assert toks[0..|toks|] == toks;
    PrefixElement(t, toks, 0);
  }

  /** `parsePostfix(t.postfix())` is `t`, zero-argument `sumexp`/`lse` included. */
  lemma PostfixRoundTrip(t: Expr)
    requires Parseable(t)
    ensures Parse(PostfixBrackets, Postfix(t)) == Ok(t)
  {
    TokenizePostfix(t);
    var toks := PostfixTokens(t);
    assert toks[0..|toks|] == toks;
    PostfixElement(t, toks, 0);
  }

  /** Two texts whose only whitespace is the space, joined by a space,
      tokenize to their two token lists in a row. */
  lemma TokenizeConcat(a: string, b: string)
    requires SpacesOnly(a) && SpacesOnly(b)
    ensures Tokenize(a + " " + b) == Tokenize(a) + Tokenize(b)
  {
    SpacesOnlyConcat(a, " ");
    SpacesOnlyConcat(a + " ", b);
    TrimKeepsWords(Pad(a + " " + b));
    TrimKeepsWords(Pad(a));
    TrimKeepsWords(Pad(b));
    PadConcat(a + " ", b);
    PadConcat(a, " ");
    PadSingles();
    WordsConcat(Pad(a), Pad(b));
  }

  /** A complete expression followed by any further token is refused as
      not wrapped (objectExpression.js:331-333). */
  lemma PrefixTrailing(t: Expr, w: string)
    requires Parseable(t) && SpacesOnly(w) && Tokenize(w) != []
    ensures Parse(PrefixBrackets, Prefix(t) + " " + w) == Err(NotWrapped)
  {
    RenderingsSpacesOnly(t);
    TokenizeConcat(Prefix(t), w);
    TokenizePrefix(t);
    var toks := PrefixTokens(t) + Tokenize(w);
    assert toks[0..|toks|] == toks;
    WindowSplit(toks, 0, PrefixTokens(t), Tokenize(w));
    PrefixElement(t, toks, 0);
  }

  lemma PostfixTrailing(t: Expr, w: string)
    requires Parseable(t) && SpacesOnly(w) && Tokenize(w) != []
    ensures Parse(PostfixBrackets, Postfix(t) + " " + w) == Err(NotWrapped)
  {
    RenderingsSpacesOnly(t);
    TokenizeConcat(Postfix(t), w);
    TokenizePostfix(t);
    var toks := PostfixTokens(t) + Tokenize(w);
    assert toks[0..|toks|] == toks;
    WindowSplit(toks, 0, PostfixTokens(t), Tokenize(w));
    PostfixElement(t, toks, 0);
  }

  // ---------------------------------------------------------------- malformed input

  /** An empty input has no element: `shift()` yields undefined. */
  lemma EmptyInput(b: Brackets)
    ensures Parse(b, "") == Err(UnexpectedToken(None))
  {
    assert Pad("") == "";
    assert Trim("") == "";
    WordsOfEmpty();
  }

  /** Too few operands for a fixed-arity operator: `(+ x` meets the end of
      the input where an operand should be and `(+ x)` meets the `)`. Both
      are unexpected tokens (`undefined`, then `)`) raised by `parseElement`
      inside the `for` loop; `checkLength` is never reached. */
  lemma PrefixTooFewOperands(k: OpKind, args: seq<Expr>, tail: seq<string>)
    requires AllParseable(args) && |args| < Arity(k)
    requires tail == [] || tail[0] == ")"
    ensures tail == [] ==> Element(PrefixBrackets, ["(", Sign(k)] + PrefixBlock(args) + tail, 0) == Err(UnexpectedToken(None))
    ensures tail != [] ==> Element(PrefixBrackets, ["(", Sign(k)] + PrefixBlock(args) + tail, 0) == Err(UnexpectedToken(Some(")")))
  {
    var toks := ["(", Sign(k)] + PrefixBlock(args) + tail;
    Layout(toks, ["(", Sign(k)], PrefixBlock(args), tail);
    var e := 2 + |PrefixBlock(args)|;
    var n := Arity(k) - |args|;
    PrefixFixed(args, toks, 2, []);
    FixedSplit(toks, 2, |args|, n, [], [] + args, e);
    FixedStops(toks, e, [] + args, n);
    OperatorOfSign(Sign(k), k);
    assert toks[0] == "(" && toks[1] == Sign(k);
    assert VariableOf("(").None? && !IsNumeric("(");
  }

  /** All operands read but no `)` after them: `checkLength` reports the end
      of the input (`(sumexp x`) or the token found instead (`(negate x y)`
      stops at `y`). A variadic group only stops at a `)` or at the end. */
  lemma PrefixUnclosed(k: OpKind, args: seq<Expr>, tail: seq<string>)
    requires AllParseable(args) && (Arity(k) == Variadic || |args| == Arity(k))
    requires tail == [] || (tail[0] != ")" && Arity(k) != Variadic)
    ensures tail == [] ==> Element(PrefixBrackets, ["(", Sign(k)] + PrefixBlock(args) + tail, 0) == Err(UnexpectedEndOfExpression(")"))
    ensures tail != [] ==> Element(PrefixBrackets, ["(", Sign(k)] + PrefixBlock(args) + tail, 0) == Err(AnotherTokenExpected(")", tail[0]))
  {
    var toks := ["(", Sign(k)] + PrefixBlock(args) + tail;
    Layout(toks, ["(", Sign(k)], PrefixBlock(args), tail);
    assert toks[0] == "(" && toks[1] == Sign(k);
    PrefixGroupRead(k, args, toks, 0);
  }

  /** After `(`, the prefix parser wants a registry operator: any other token
      (a postfix rendering's first operand, say) is refused. */
  lemma PrefixNoOperator(t: string, tail: seq<string>)
    requires OperatorOf(t).None?
    ensures Element(PrefixBrackets, ["(", t] + tail, 0) == Err(UnexpectedToken(Some(t)))
  {
    var toks := ["(", t] + tail;
    assert toks[0] == "(" && toks[1] == t;
    assert VariableOf("(").None? && !IsNumeric("(");
  }

  /** An operator is no element: outside brackets its sign is refused, in
      either notation. */
  lemma BareOperator(b: Brackets, k: OpKind, tail: seq<string>)
    ensures Element(b, [Sign(k)] + tail, 0) == Err(UnexpectedToken(Some(Sign(k))))
  {
    SignIsAtom(k);
    assert ([Sign(k)] + tail)[0] == Sign(k);
  }

  /** A postfix group whose operand count differs from the operator's fixed
      arity: `(x sumsq2)` has one operand for two, and `(+ x y)` read as
      postfix stops at once at `+` with none. */
  lemma PostfixWrongCount(k: OpKind, args: seq<Expr>, tail: seq<string>)
    requires AllParseable(args) && Arity(k) > 0 && |args| != Arity(k)
    ensures Element(PostfixBrackets, ["("] + PostfixBlock(args) + ([Sign(k)] + tail), 0) == Err(WrongNumberOfArguments(Arity(k), |args|))
  {
    var toks := ["("] + PostfixBlock(args) + ([Sign(k)] + tail);
    Layout(toks, ["("], PostfixBlock(args), [Sign(k)] + tail);
    assert toks[0] == "(";
    PostfixGroupRead(k, args, toks, 0, 1 + |PostfixBlock(args)|);
  }

  /** A postfix group with the right operands and its operator but no `)`
      after it: `checkLength` reports the end of the input or the token found. */
  lemma PostfixUnclosed(k: OpKind, args: seq<Expr>, tail: seq<string>)
    requires AllParseable(args) && (Arity(k) == Variadic || |args| == Arity(k))
    requires tail == [] || tail[0] != ")"
    ensures tail == [] ==> Element(PostfixBrackets, ["("] + PostfixBlock(args) + ([Sign(k)] + tail), 0) == Err(UnexpectedEndOfExpression(")"))
    ensures tail != [] ==> Element(PostfixBrackets, ["("] + PostfixBlock(args) + ([Sign(k)] + tail), 0) == Err(AnotherTokenExpected(")", tail[0]))
  {
    var toks := ["("] + PostfixBlock(args) + ([Sign(k)] + tail);
    Layout(toks, ["("], PostfixBlock(args), [Sign(k)] + tail);
    assert toks[0] == "(";
    assert tail != [] ==> toks[2 + |PostfixBlock(args)|] == tail[0];
    PostfixGroupRead(k, args, toks, 0, 1 + |PostfixBlock(args)|);
  }

  /** Input that ends inside a postfix group before any operator: the code
      reads the registry entry of `undefined` and fails with a `TypeError`,
      not with a parsing error. */
  lemma PostfixNoOperator(args: seq<Expr>)
    requires AllParseable(args)
    ensures Element(PostfixBrackets, ["("] + PostfixBlock(args), 0) == Err(MissingOperator)
  {
    var toks := ["("] + PostfixBlock(args);
    Layout(toks, ["("], PostfixBlock(args), []);
    assert toks == ["("] + PostfixBlock(args) + [];
    assert toks[0] == "(";
    PostfixOps(args, toks, 1, []);
    assert [] + args == args;
    assert VariableOf("(").None? && !IsNumeric("(");
  }
}
