/** The expression tree of objectExpression.js: constants, the three
    variables and the operator nodes of the registry at
    objectExpression.js:226-248, with the literal syntax of their leaves. */
module Expressions {
  import opened Text

  // ---------------------------------------------------------------- numbers

  /** The host's numbers, as far as the tree needs them: integers, and the
      NaN that `Number(token)` gives for a token that is not numeric. */
  datatype Number = Int(value: int) | NaN

  function DigitChar(d: nat): char
    requires d < 10
  {
    "0123456789"[d]
  }

  predicate IsDigit(c: char) {
    '0' <= c <= '9'
  }

  function DigitValue(c: char): nat
    requires IsDigit(c)
  {
    (c as int - '0' as int) as nat
  }

  /** The decimal digits of `n`, most significant first, no leading zero. */
  function Digits(n: nat): (s: string)
    ensures |s| > 0 && forall i :: 0 <= i < |s| ==> IsDigit(s[i])
  {
    if n < 10 then [DigitChar(n)] else Digits(n / 10) + [DigitChar(n % 10)]
  }

  predicate AllDigits(s: string) {
    forall i :: 0 <= i < |s| ==> IsDigit(s[i])
  }

  /** The value of a digit string read most significant first. */
  function DigitsValue(s: string): nat
    requires AllDigits(s)
  {
    if s == [] then 0 else DigitsValue(s[..|s| - 1]) * 10 + DigitValue(s[|s| - 1])
  }

  /** `"" + value`, the rendering of a constant (objectExpression.js:8-10). */
  function NumToString(v: Number): string {
    match v
    case Int(i) => if i < 0 then "-" + Digits(-i) else Digits(i)
    case NaN => "NaN"
  }

  /** `!isNaN(token)` (objectExpression.js:261), restricted to decimal
      integers with an optional minus sign. */
  predicate IsNumeric(t: string) {
    if |t| > 0 && t[0] == '-' then |t| > 1 && AllDigits(t[1..]) else |t| > 0 && AllDigits(t)
  }

  /** `Number(token)` for a numeric token. */
  function ParseNum(t: string): int
    requires IsNumeric(t)
  {
    if t[0] == '-' then -(DigitsValue(t[1..]) as int) else DigitsValue(t)
  }

  /** `Number(token)` for any token (objectExpression.js:410). */
  function NumberOf(t: string): Number {
    if IsNumeric(t) then Int(ParseNum(t)) else NaN
  }

  lemma {:induction false} DigitsRoundTrip(n: nat)
    ensures DigitsValue(Digits(n)) == n
  {
    var s := Digits(n);
    if n >= 10 {
      DigitsRoundTrip(n / 10);
      assert s[..|s| - 1] == Digits(n / 10);
      assert s[|s| - 1] == DigitChar(n % 10);
    }
  }

  /** The rendering of an integer constant reads back as that integer. */
  lemma NumberRoundTrip(i: int)
    ensures IsNumeric(NumToString(Int(i))) && NumberOf(NumToString(Int(i))) == Int(i)
  {
    var m: nat := if i < 0 then -i else i;
    var ds := Digits(m);
    DigitsRoundTrip(m);
    Numeral(ds, i < 0);
    assert NumToString(Int(i)) == if i < 0 then "-" + ds else ds;
  }

  /** A non-empty digit string, with or without a leading minus sign, is
      numeric and reads as its value. */
  lemma Numeral(ds: string, negative: bool)
    requires |ds| > 0 && AllDigits(ds)
    ensures negative ==> IsNumeric("-" + ds) && ParseNum("-" + ds) == -(DigitsValue(ds) as int)
    ensures !negative ==> IsNumeric(ds) && ParseNum(ds) == DigitsValue(ds)
  {
    assert ("-" + ds)[1..] == ds;
    assert IsDigit(ds[0]);
  }

  // ---------------------------------------------------------------- variables

  datatype Name = X | Y | Z

  function NameText(n: Name): string {
    match n
    case X => "x"
    case Y => "y"
    case Z => "z"
  }

  /** The variable registry (objectExpression.js:244-248). */
  function VariableOf(t: string): (r: Option<Name>)
    ensures r.Some? ==> NameText(r.value) == t
  {
    if t == "x" then Some(X) else if t == "y" then Some(Y) else if t == "z" then Some(Z) else None
  }

  datatype Option<T> = None | Some(value: T)

  // ---------------------------------------------------------------- operators

  /** The operator kinds of the registry (objectExpression.js:226-242). */
  datatype OpKind =
    | Add | Subtract | Multiply | Divide | Negate | Sumexp | Lse
    | Sumsq2 | Sumsq3 | Sumsq4 | Sumsq5
    | Distance2 | Distance3 | Distance4 | Distance5

  /** The registry's argument count; -1 marks a variadic operator. */
  const Variadic := -1

  function Arity(k: OpKind): int {
    match k
    case Add | Subtract | Multiply | Divide => 2
    case Negate => 1
    case Sumexp | Lse => Variadic
    case Sumsq2 | Distance2 => 2
    case Sumsq3 | Distance3 => 3
    case Sumsq4 | Distance4 => 4
    case Sumsq5 | Distance5 => 5
  }

  /** `getOperationSign()`: the token of an operator. */
  function Sign(k: OpKind): string {
    match k
    case Add => "+"
    case Subtract => "-"
    case Multiply => "*"
    case Divide => "/"
    case Negate => "negate"
    case Sumexp => "sumexp"
    case Lse => "lse"
    case Sumsq2 => "sumsq2"
    case Sumsq3 => "sumsq3"
    case Sumsq4 => "sumsq4"
    case Sumsq5 => "sumsq5"
    case Distance2 => "distance2"
    case Distance3 => "distance3"
    case Distance4 => "distance4"
    case Distance5 => "distance5"
  }

  /** `operators.has(t)` and `operators.get(t)`: the registry read from its
      token side; it is the inverse of `Sign`. */
  function OperatorOf(t: string): (r: Option<OpKind>)
    ensures r.Some? ==> Sign(r.value) == t
  {
    if t == "+" then Some(Add)
    else if t == "-" then Some(Subtract)
    else if t == "*" then Some(Multiply)
    else if t == "/" then Some(Divide)
    else if t == "negate" then Some(Negate)
    else if t == "sumexp" then Some(Sumexp)
    else if t == "lse" then Some(Lse)
    else if t == "sumsq2" then Some(Sumsq2)
    else if t == "sumsq3" then Some(Sumsq3)
    else if t == "sumsq4" then Some(Sumsq4)
    else if t == "sumsq5" then Some(Sumsq5)
    else if t == "distance2" then Some(Distance2)
    else if t == "distance3" then Some(Distance3)
    else if t == "distance4" then Some(Distance4)
    else if t == "distance5" then Some(Distance5)
    else None
  }

  /** The operator registry finds exactly the operators' signs: `t` is
      found as `k` if and only if `k`'s sign is `t`. */
  lemma OperatorOfSign(t: string, k: OpKind)
    ensures OperatorOf(t) == Some(k) <==> Sign(k) == t
  {
    match k
    case Add => case Subtract => case Multiply => case Divide => case Negate =>
    case Sumexp => case Lse => case Sumsq2 => case Sumsq3 => case Sumsq4 =>
    case Sumsq5 => case Distance2 => case Distance3 => case Distance4 => case Distance5 =>
  }

  /** The variable registry finds exactly the variables' names. */
  lemma VariableOfName(t: string, n: Name)
    ensures VariableOf(t) == Some(n) <==> NameText(n) == t
  {
  }

  // ---------------------------------------------------------------- the tree

  /** `Const`, `Variable` and the operator nodes built by
      `buildAbstractExpression`: one closed type. */
  datatype Expr =
    | Const(value: Number)
    | Var(name: Name)
    | Op(kind: OpKind, args: seq<Expr>)
    | Undefined  // the host's `undefined`, where a builder was given too few operands

  /** The registry entries whose builder names its parameters
      (objectExpression.js:227-231): an operand the caller does not supply
      arrives as `undefined`. The other entries (objectExpression.js:232-241)
      pass on a rest parameter, however long. */
  predicate NamedBuilder(k: OpKind) {
    k == Add || k == Subtract || k == Multiply || k == Divide || k == Negate
  }

  /** `operators.get(sign)[1](...operands)`: the node the registry builds. A
      named-parameter builder makes a node of exactly its arity, its missing
      operands `undefined`; a rest-parameter builder takes the operands as given. */
  function Build(k: OpKind, operands: seq<Expr>): (r: Expr)
    ensures r.Op? && r.kind == k
    ensures NamedBuilder(k) ==> |r.args| == Arity(k)
    ensures NamedBuilder(k) ==> forall i :: 0 <= i < |r.args| ==> r.args[i] == if i < |operands| then operands[i] else Undefined
    ensures !NamedBuilder(k) ==> r.args == operands
  {
    if NamedBuilder(k) then
      Op(k, seq(Arity(k), i requires 0 <= i < Arity(k) => if i < |operands| then operands[i] else Undefined))
    else Op(k, operands)
  }

  /** Given exactly its operands, every builder makes the plain node. */
  lemma BuildExact(k: OpKind, operands: seq<Expr>)
    requires !NamedBuilder(k) || |operands| == Arity(k)
    ensures Build(k, operands) == Op(k, operands)
  {
    if NamedBuilder(k) {
      assert Build(k, operands).args == operands;
    }
  }

  /** Given too few operands, a named-parameter builder makes a node that
      starts with them and is padded with `undefined`; no parser of this
      model accepts it and `diff` is not defined on it. */
  lemma BuildShort(k: OpKind, operands: seq<Expr>)
    requires NamedBuilder(k) && |operands| < Arity(k)
    ensures var r := Build(k, operands);
      |r.args| == Arity(k) && r.args[..|operands|] == operands && r.args[|operands|] == Undefined
    ensures !Parseable(Build(k, operands)) && !Differentiable(Build(k, operands)) && !StackShaped(Build(k, operands))
  {
    var r := Build(k, operands);
    assert r.args[..|operands|] == operands;
    assert r.args[|operands|] == Undefined;
  }

  /** The trees the bracket parsers build: arities right and no NaN constant. */
  predicate Parseable(e: Expr) {
    match e
    case Const(v) => v.Int?
    case Var(_) => true
    case Op(k, args) =>
      (Arity(k) == Variadic || |args| == Arity(k)) && forall i :: 0 <= i < |args| ==> Parseable(args[i])
    case Undefined => false
  }

  /** The trees `diff` is defined on: arities right and every `sumexp`/`lse`
      node with at least one argument (the rules read `args[0]`). */
  predicate Differentiable(e: Expr) {
    match e
    case Const(_) => true
    case Var(_) => true
    case Op(k, args) =>
      (if Arity(k) == Variadic then |args| >= 1 else |args| == Arity(k))
      && forall i :: 0 <= i < |args| ==> Differentiable(args[i])
    case Undefined => false
  }

  /** The trees the stack parser can rebuild: arities right and every
      variadic node empty (the stack parser gives them no operands). */
  predicate StackShaped(e: Expr) {
    match e
    case Const(_) => true
    case Var(_) => true
    case Op(k, args) =>
      (if Arity(k) == Variadic then args == [] else |args| == Arity(k))
      && forall i :: 0 <= i < |args| ==> StackShaped(args[i])
    case Undefined => false
  }

  /** Variable `n` occurs in `e`. */
  predicate Mentions(e: Expr, n: Name) {
    match e
    case Const(_) => false
    case Var(m) => m == n
    case Op(_, args) => exists i :: 0 <= i < |args| && Mentions(args[i], n)
    case Undefined => false
  }

  // ---------------------------------------------------------------- leaf tokens

  /** A leaf token: one token that is neither an operator nor a bracket. */
  predicate IsLeafToken(t: string) {
    IsAtom(t) && OperatorOf(t).None? && t != "(" && t != ")"
  }

  /** A token that starts with a digit, or with a minus sign followed by
      more, is not an operator. */
  lemma NumeralIsNotOperator(t: string)
    requires |t| > 0 && (IsDigit(t[0]) || (t[0] == '-' && |t| > 1))
    ensures OperatorOf(t).None? && VariableOf(t).None?
  {
  }

  /** A number renders as one leaf token, never taken for a variable. */
  lemma NumberIsLeaf(v: Number)
    ensures IsLeafToken(NumToString(v)) && VariableOf(NumToString(v)).None?
  {
    match v
    case Int(i) =>
      var m: nat := if i < 0 then -i else i;
      var ds := Digits(m);
      SignedDigitsAreLeaf(ds, i < 0);
      assert NumToString(v) == if i < 0 then "-" + ds else ds;
    case NaN =>
  }

  /** A non-empty digit string, with or without a leading minus sign, is a leaf token. */
  lemma SignedDigitsAreLeaf(ds: string, negative: bool)
    requires |ds| > 0 && AllDigits(ds)
    ensures var t := if negative then "-" + ds else ds; IsLeafToken(t) && VariableOf(t).None?
  {
    var t := if negative then "-" + ds else ds;
    forall j | 0 <= j < |t| ensures t[j] == '-' || IsDigit(t[j]) {
      if negative && j > 0 { assert t[j] == ds[j - 1]; }
    }
    assert negative ==> t[1] == ds[0];
    NumeralIsNotOperator(t);
  }

  /** A variable renders as one leaf token that is not numeric. */
  lemma NameIsLeaf(n: Name)
    ensures IsLeafToken(NameText(n)) && !IsNumeric(NameText(n)) && VariableOf(NameText(n)) == Some(n)
  {
  }

  /** An operator token is a single token that is neither numeric nor a variable. */
  lemma SignIsAtom(k: OpKind)
    ensures IsAtom(Sign(k)) && !IsNumeric(Sign(k)) && VariableOf(Sign(k)).None?
    ensures Sign(k) != "(" && Sign(k) != ")"
  {
    match k
    case Add => PlainIsAtom("+");
    case Subtract => PlainIsAtom("-");
    case Multiply => PlainIsAtom("*");
    case Divide => PlainIsAtom("/");
    case Negate => PlainIsAtom("negate");
    case Sumexp => PlainIsAtom("sumexp");
    case Lse => PlainIsAtom("lse");
    case Sumsq2 => PlainIsAtom("sumsq2");
    case Sumsq3 => PlainIsAtom("sumsq3");
    case Sumsq4 => PlainIsAtom("sumsq4");
    case Sumsq5 => PlainIsAtom("sumsq5");
    case Distance2 => PlainIsAtom("distance2");
    case Distance3 => PlainIsAtom("distance3");
    case Distance4 => PlainIsAtom("distance4");
    case Distance5 => PlainIsAtom("distance5");
  }

  /** The characters operator signs are written with. */
  predicate PlainChar(c: char) {
    ('a' <= c <= 'z') || ('0' <= c <= '9') || c == '+' || c == '-' || c == '*' || c == '/'
  }

  lemma PlainIsAtom(s: string)
    requires |s| > 0 && forall c :: c in s ==> PlainChar(c)
    ensures IsAtom(s)
  {
    forall i | 0 <= i < |s| ensures PlainChar(s[i]) {
      assert s[i] in s;
    }
  }
}
