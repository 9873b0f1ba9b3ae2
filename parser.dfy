/** The bracketed parsers of objectExpression.js:256-339: `parseElement`,
    `checkLength`, `parsePrefixBrackets`, `parsePostfixBrackets` and
    `buildParsingFunction`. The source consumes a shared token array with
    `shift()`; here the array is a sequence and the consumed prefix is a cursor
    `pos`, so a step that consumes tokens returns the new cursor. Each parser
    is a specification function and a method with the source's loops proved
    equal to it. */
module Parsing {
  import opened Text
  import opened Expressions

  /** The error family of objectExpression.js:177-224, without message text;
      `MissingOperator` is the host `TypeError` the postfix parser raises at
      objectExpression.js:312 when the input ends before an operator. */
  datatype ParseError =
    | UnexpectedEndOfExpression(expected: string)
    | AnotherTokenExpected(expected: string, found: string)
    | UnexpectedToken(token: Option<string>)
    | WrongNumberOfArguments(declared: int, got: nat)
    | NotWrapped
    | MissingOperator

  /** Every tree of `xs` is one the parsers can build. */
  predicate AllParseable(xs: seq<Expr>) {
    forall i :: 0 <= i < |xs| ==> Parseable(xs[i])
  }

  datatype Result<T> = Ok(value: T) | Err(error: ParseError)

  /** Which `bracketsParsingFunction` an element parse passes on. */
  datatype Brackets = PrefixBrackets | PostfixBrackets

  /** `checkLength` (objectExpression.js:270-277): no error exactly when a `)`
      is at the cursor. */
  function CheckLength(toks: seq<string>, pos: nat): (r: Option<ParseError>)
    ensures r.None? <==> pos < |toks| && toks[pos] == ")"
    ensures pos >= |toks| ==> r == Some(UnexpectedEndOfExpression(")"))
    ensures pos < |toks| && toks[pos] != ")" ==> r == Some(AnotherTokenExpected(")", toks[pos]))
  {
    if pos >= |toks| then Some(UnexpectedEndOfExpression(")"))
    else if toks[pos] != ")" then Some(AnotherTokenExpected(")", toks[pos]))
    else None
  }

  // ---------------------------------------------------------------- specification

  /** `parseElement` (objectExpression.js:256-268) from cursor `pos`: a
      variable, then a number, then a bracketed group; a successful parse
      consumes at least one token and builds a well-formed tree. */
  function Element(b: Brackets, toks: seq<string>, pos: nat): (r: Result<(Expr, nat)>)
    requires pos <= |toks|
    ensures r.Ok? ==> pos < r.value.1 <= |toks| && Parseable(r.value.0)
    decreases |toks| - pos, 0
  {
    if pos == |toks| then Err(UnexpectedToken(None))
    else
      var t := toks[pos];
      match VariableOf(t)
      case Some(n) => Ok((Var(n), pos + 1))
      case None =>
        if IsNumeric(t) then Ok((Const(Int(ParseNum(t))), pos + 1))
        else if t == "(" then
          (if b == PrefixBrackets then PrefixGroup(toks, pos + 1) else PostfixGroup(toks, pos + 1))
        else Err(UnexpectedToken(Some(t)))
  }

  /** `parsePrefixBrackets` (objectExpression.js:279-302), called just after the `(`. */
  function PrefixGroup(toks: seq<string>, pos: nat): (r: Result<(Expr, nat)>)
    requires pos <= |toks|
    ensures r.Ok? ==> pos < r.value.1 <= |toks| && Parseable(r.value.0)
    decreases |toks| - pos, 2
  {
    if pos == |toks| then Err(UnexpectedToken(None))
    else
      match OperatorOf(toks[pos])
      case None => Err(UnexpectedToken(Some(toks[pos])))
      case Some(k) =>
        var operands := if Arity(k) > -1 then FixedOperands(toks, pos + 1, Arity(k) as nat, [])
                        else VariadicOperands(toks, pos + 1, []);
        match operands
        case Err(e) => Err(e)
        case Ok((args, p)) =>
          match CheckLength(toks, p)
          case Some(e) => Err(e)
          case None => Ok((Op(k, args), p + 1))
  }

  /** The `for` loop of objectExpression.js:287-289: exactly `n` more elements. */
  function FixedOperands(toks: seq<string>, pos: nat, n: nat, acc: seq<Expr>): (r: Result<(seq<Expr>, nat)>)
    requires pos <= |toks|
    requires AllParseable(acc)
    ensures r.Ok? ==> pos <= r.value.1 <= |toks| && |r.value.0| == |acc| + n && r.value.0[..|acc|] == acc
    ensures r.Ok? ==> AllParseable(r.value.0)
    decreases |toks| - pos, 1
  {
    if n == 0 then Ok((acc, pos))
    else
      match Element(PrefixBrackets, toks, pos)
      case Err(e) => Err(e)
      case Ok((e, p)) => FixedOperands(toks, p, n - 1, acc + [e])
  }

  /** The `while` loop of objectExpression.js:291-293: elements until a `)`
      is next or the input ends. */
  function VariadicOperands(toks: seq<string>, pos: nat, acc: seq<Expr>): (r: Result<(seq<Expr>, nat)>)
    requires pos <= |toks|
    requires AllParseable(acc)
    ensures r.Ok? ==> pos <= r.value.1 <= |toks| && |r.value.0| >= |acc| && r.value.0[..|acc|] == acc
    ensures r.Ok? ==> AllParseable(r.value.0)
    ensures r.Ok? ==> r.value.1 == |toks| || toks[r.value.1] == ")"
    decreases |toks| - pos, 1
  {
    if pos < |toks| && toks[pos] != ")" then
      match Element(PrefixBrackets, toks, pos)
      case Err(e) => Err(e)
      case Ok((e, p)) => VariadicOperands(toks, p, acc + [e])
    else Ok((acc, pos))
  }

  /** The `while` loop of objectExpression.js:307-310: elements until a
      registry operator is next or the input ends. */
  function PostfixOperands(toks: seq<string>, pos: nat, acc: seq<Expr>): (r: Result<(seq<Expr>, nat)>)
    requires pos <= |toks|
    requires AllParseable(acc)
    ensures r.Ok? ==> pos <= r.value.1 <= |toks| && |r.value.0| >= |acc| && r.value.0[..|acc|] == acc
    ensures r.Ok? ==> AllParseable(r.value.0)
    ensures r.Ok? ==> r.value.1 == |toks| || OperatorOf(toks[r.value.1]).Some?
    decreases |toks| - pos, 1
  {
    if pos < |toks| && OperatorOf(toks[pos]).None? then
      match Element(PostfixBrackets, toks, pos)
      case Err(e) => Err(e)
      case Ok((e, p)) => PostfixOperands(toks, p, acc + [e])
    else Ok((acc, pos))
  }

  /** `parsePostfixBrackets` (objectExpression.js:304-325), called just after the `(`. */
  function PostfixGroup(toks: seq<string>, pos: nat): (r: Result<(Expr, nat)>)
    requires pos <= |toks|
    ensures r.Ok? ==> pos < r.value.1 <= |toks| && Parseable(r.value.0)
    decreases |toks| - pos, 2
  {
    match PostfixOperands(toks, pos, [])
    case Err(e) => Err(e)
    case Ok((args, p)) =>
      if p == |toks| then Err(MissingOperator)
      else
        var k := OperatorOf(toks[p]).value;
        if Arity(k) > 0 && |args| != Arity(k) then Err(WrongNumberOfArguments(Arity(k), |args|))
        else
          match CheckLength(toks, p + 1)
          case Some(e) => Err(e)
          case None => Ok((Op(k, args), p + 2))
  }

  /** `parsePrefix` / `parsePostfix` (objectExpression.js:327-339): one
      element over the whole token list, and nothing left over. */
  function Parse(b: Brackets, s: string): (r: Result<Expr>)
    ensures r.Ok? ==> Parseable(r.value)
  {
    var toks := Tokenize(s);
    match Element(b, toks, 0)
    case Err(e) => Err(e)
    case Ok((e, p)) => if p < |toks| then Err(NotWrapped) else Ok(e)
  }

  // ---------------------------------------------------------------- the parsers

  /** `parseElement`: the step the source takes at the head of the token array. */
  method ParseElement(b: Brackets, toks: seq<string>, pos: nat) returns (r: Result<(Expr, nat)>)
    requires pos <= |toks|
    ensures r == Element(b, toks, pos)
    decreases |toks| - pos, 0
  {
    if pos == |toks| {
      return Err(UnexpectedToken(None));
    }
    var token := toks[pos];
    var v := VariableOf(token);
    if v.Some? {
      return Ok((Var(v.value), pos + 1));
    }
    if IsNumeric(token) {
      return Ok((Const(Int(ParseNum(token))), pos + 1));
    }
    if token == "(" {
      if b == PrefixBrackets {
        r := ParsePrefixBrackets(toks, pos + 1);
      } else {
        r := ParsePostfixBrackets(toks, pos + 1);
      }
      return;
    }
    return Err(UnexpectedToken(Some(token)));
  }

  /** `parsePrefixBrackets`, with its `for` and `while` loops. */
  method ParsePrefixBrackets(toks: seq<string>, pos: nat) returns (r: Result<(Expr, nat)>)
    requires pos <= |toks|
    ensures r == PrefixGroup(toks, pos)
    decreases |toks| - pos, 2
  {
    if pos == |toks| {
      return Err(UnexpectedToken(None));
    }
    var operator := OperatorOf(toks[pos]);
    if operator.None? {
      return Err(UnexpectedToken(Some(toks[pos])));
    }
    var k := operator.value;
    var args: seq<Expr> := [];
    var cur := pos + 1;
    if Arity(k) > -1 {
      var n := Arity(k) as nat;
      var i := 0;
      ghost var whole := FixedOperands(toks, pos + 1, n, []);
      while i < n
        invariant 0 <= i <= n && pos < cur <= |toks| && |args| == i
        invariant AllParseable(args)
        invariant FixedOperands(toks, cur, n - i, args) == whole
        decreases n - i
      {
        var el := ParseElement(PrefixBrackets, toks, cur);
        if el.Err? {
          return Err(el.error);
        }
        args := args + [el.value.0];
        cur := el.value.1;
        i := i + 1;
      }
    } else {
      ghost var whole := VariadicOperands(toks, pos + 1, []);
      while cur < |toks| && toks[cur] != ")"
        invariant pos < cur <= |toks|
        invariant AllParseable(args)
        invariant VariadicOperands(toks, cur, args) == whole
        decreases |toks| - cur
      {
        var el := ParseElement(PrefixBrackets, toks, cur);
        if el.Err? {
          return Err(el.error);
        }
        args := args + [el.value.0];
        cur := el.value.1;
      }
    }
    var check := CheckLength(toks, cur);
    if check.Some? {
      return Err(check.value);
    }
    return Ok((Op(k, args), cur + 1));
  }

  /** `parsePostfixBrackets`, with its `while` loop. */
  method ParsePostfixBrackets(toks: seq<string>, pos: nat) returns (r: Result<(Expr, nat)>)
    requires pos <= |toks|
    ensures r == PostfixGroup(toks, pos)
    decreases |toks| - pos, 2
  {
    var args: seq<Expr> := [];
    var cur := pos;
    ghost var whole := PostfixOperands(toks, pos, []);
    while cur < |toks| && OperatorOf(toks[cur]).None?
      invariant pos <= cur <= |toks|
      invariant AllParseable(args)
      invariant PostfixOperands(toks, cur, args) == whole
      decreases |toks| - cur
    {
      var el := ParseElement(PostfixBrackets, toks, cur);
      if el.Err? {
        return Err(el.error);
      }
      args := args + [el.value.0];
      cur := el.value.1;
    }
    if cur == |toks| {
      return Err(MissingOperator);
    }
    var k := OperatorOf(toks[cur]).value;
    if Arity(k) > 0 && |args| != Arity(k) {
      return Err(WrongNumberOfArguments(Arity(k), |args|));
    }
    var check := CheckLength(toks, cur + 1);
    if check.Some? {
      return Err(check.value);
    }
    return Ok((Op(k, args), cur + 2));
  }

  /** The function `buildParsingFunction` returns. */
  method ParseString(b: Brackets, s: string) returns (r: Result<Expr>)
    ensures r == Parse(b, s)
  {
    var tokens := Tokenize(s);
    var el := ParseElement(b, tokens, 0);
    if el.Err? {
      return Err(el.error);
    }
    if el.value.1 < |tokens| {
      return Err(NotWrapped);
    }
    return Ok(el.value.0);
  }
}
