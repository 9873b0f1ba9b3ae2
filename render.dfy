/** The three renderings of a tree: `toString` (bare postfix,
    objectExpression.js:8-10, 37-39, 63-66), `prefix` (objectExpression.js:14-16,
    46-48, 70-73) and `postfix` (objectExpression.js:17-19, 49-51, 74-77),
    and the token lists the tokenizers cut them into. */
module Rendering {
  import opened Text
  import opened Expressions

  /** The literal of a constant or the name of a variable; a missing operand
      is written as the word `undefined` (the source throws instead). */
  function LeafText(e: Expr): string
    requires !e.Op?
  {
    match e
    case Const(v) => NumToString(v)
    case Var(n) => NameText(n)
    case Undefined => "undefined"
  }

  /** A leaf renders as one token that is neither an operator nor a bracket. */
  lemma LeafTextIsLeaf(e: Expr)
    requires !e.Op?
    ensures IsLeafToken(LeafText(e))
  {
    match e
    case Const(v) => NumberIsLeaf(v);
    case Var(n) => NameIsLeaf(n);
    case Undefined => PlainIsAtom("undefined");
  }

  /** `toString()`: the arguments' renderings joined by spaces, then the sign. */
  function ToString(e: Expr): string {
    match e
    case Const(_) => LeafText(e)
    case Var(_) => LeafText(e)
    case Undefined => LeafText(e)
    case Op(k, args) => JoinSpace(seq(|args|, i requires 0 <= i < |args| => ToString(args[i]))) + " " + Sign(k)
  }

  /** `prefix()`: `(op a1 ... an)`; leaves bare. */
  function Prefix(e: Expr): string {
    match e
    case Const(_) => LeafText(e)
    case Var(_) => LeafText(e)
    case Undefined => LeafText(e)
    case Op(k, args) => "(" + Sign(k) + " " + JoinSpace(seq(|args|, i requires 0 <= i < |args| => Prefix(args[i]))) + ")"
  }

  /** `postfix()`: `(a1 ... an op)`; leaves bare. */
  function Postfix(e: Expr): string {
    match e
    case Const(_) => LeafText(e)
    case Var(_) => LeafText(e)
    case Undefined => LeafText(e)
    case Op(k, args) => "(" + JoinSpace(seq(|args|, i requires 0 <= i < |args| => Postfix(args[i]))) + " " + Sign(k) + ")"
  }

  // ---------------------------------------------------------------- token lists

  /** The tokens of `prefix()`: a leaf is one token, a node is `(`, its sign,
      its arguments' tokens and `)`. */
  function PrefixTokens(e: Expr): (r: seq<string>)
    ensures |r| >= 1
  {
    match e
    case Const(_) => [LeafText(e)]
    case Var(_) => [LeafText(e)]
    case Undefined => [LeafText(e)]
    case Op(k, args) => ["(", Sign(k)] + Flatten(seq(|args|, i requires 0 <= i < |args| => PrefixTokens(args[i]))) + [")"]
  }

  /** The tokens of `postfix()`: `(`, the arguments' tokens, the sign and `)`. */
  function PostfixTokens(e: Expr): (r: seq<string>)
    ensures |r| >= 1
  {
    match e
    case Const(_) => [LeafText(e)]
    case Var(_) => [LeafText(e)]
    case Undefined => [LeafText(e)]
    case Op(k, args) => ["("] + Flatten(seq(|args|, i requires 0 <= i < |args| => PostfixTokens(args[i]))) + [Sign(k), ")"]
  }

  /** The tokens of `toString()`: the arguments' tokens, then the sign. */
  function BareTokens(e: Expr): seq<string> {
    match e
    case Const(_) => [LeafText(e)]
    case Var(_) => [LeafText(e)]
    case Undefined => [LeafText(e)]
    case Op(k, args) => Flatten(seq(|args|, i requires 0 <= i < |args| => BareTokens(args[i]))) + [Sign(k)]
  }

  /** Every rendering starts with `(` or with a leaf token. */
  lemma FirstToken(e: Expr)
    ensures var p := PrefixTokens(e)[0]; p == "(" || IsLeafToken(p)
    ensures var q := PostfixTokens(e)[0]; q == "(" || IsLeafToken(q)
  {
    if !e.Op? {
      LeafTextIsLeaf(e);
    }
  }

  // ---------------------------------------------------------------- joining and padding

  lemma {:induction false} WordsJoin(xs: seq<string>)
    ensures Words(JoinSpace(xs)) == Flatten(seq(|xs|, i requires 0 <= i < |xs| => Words(xs[i])))
    decreases |xs|
  {
    var ws := seq(|xs|, i requires 0 <= i < |xs| => Words(xs[i]));
    if xs == [] {
      WordsOfEmpty();
    } else if |xs| == 1 {
      assert Flatten(ws) == ws[0] + Flatten(ws[1..]);
      assert ws[1..] == [];
    } else {
      WordsConcat(xs[0], JoinSpace(xs[1..]));
      WordsJoin(xs[1..]);
      assert ws[1..] == seq(|xs[1..]|, i requires 0 <= i < |xs[1..]| => Words(xs[1..][i]));
    }
  }

  lemma {:induction false} PadJoin(xs: seq<string>)
    ensures Pad(JoinSpace(xs)) == JoinSpace(seq(|xs|, i requires 0 <= i < |xs| => Pad(xs[i])))
    decreases |xs|
  {
    var ps := seq(|xs|, i requires 0 <= i < |xs| => Pad(xs[i]));
    if |xs| >= 2 {
      PadConcat(xs[0] + " ", JoinSpace(xs[1..]));
      PadConcat(xs[0], " ");
      assert Pad(" ") == " ";
      PadJoin(xs[1..]);
      assert ps[1..] == seq(|xs[1..]|, i requires 0 <= i < |xs[1..]| => Pad(xs[1..][i]));
    }
  }

  lemma {:induction false} SpacesOnlyJoin(xs: seq<string>)
    requires forall i :: 0 <= i < |xs| ==> SpacesOnly(xs[i])
    ensures SpacesOnly(JoinSpace(xs))
    decreases |xs|
  {
    if |xs| >= 2 {
      SpacesOnlyJoin(xs[1..]);
      SpacesOnlyConcat(xs[0], " ");
      SpacesOnlyConcat(xs[0] + " ", JoinSpace(xs[1..]));
    }
  }

  lemma SpacesOnlyConcat(a: string, b: string)
    requires SpacesOnly(a) && SpacesOnly(b)
    ensures SpacesOnly(a + b)
  {
    forall i | 0 <= i < |a + b| && IsWhitespace((a + b)[i]) ensures (a + b)[i] == ' ' {
      if i >= |a| { assert (a + b)[i] == b[i - |a|]; }
    }
  }

  lemma LeafWords(e: Expr)
    requires !e.Op?
    ensures Words(Pad(LeafText(e))) == [LeafText(e)]
    ensures SpacesOnly(LeafText(e))
  {
    var t := LeafText(e);
    LeafTextIsLeaf(e);
    PadNoBracket(t);
    WordsOfWord(t);
  }

  /** The only whitespace in a rendering is the plain space. */
  lemma {:induction false} RenderingsSpacesOnly(e: Expr)
    ensures SpacesOnly(Prefix(e)) && SpacesOnly(Postfix(e)) && SpacesOnly(ToString(e))
    decreases e
  {
    match e
    case Const(_) => LeafWords(e);
    case Var(_) => LeafWords(e);
    case Undefined => LeafWords(e);
    case Op(k, args) =>
      forall i | 0 <= i < |args| ensures SpacesOnly(Prefix(args[i])) && SpacesOnly(Postfix(args[i])) && SpacesOnly(ToString(args[i])) {
        RenderingsSpacesOnly(args[i]);
      }
      var pj := JoinSpace(seq(|args|, i requires 0 <= i < |args| => Prefix(args[i])));
      var qj := JoinSpace(seq(|args|, i requires 0 <= i < |args| => Postfix(args[i])));
      var sj := JoinSpace(seq(|args|, i requires 0 <= i < |args| => ToString(args[i])));
      SpacesOnlyJoin(seq(|args|, i requires 0 <= i < |args| => Prefix(args[i])));
      SpacesOnlyJoin(seq(|args|, i requires 0 <= i < |args| => Postfix(args[i])));
      SpacesOnlyJoin(seq(|args|, i requires 0 <= i < |args| => ToString(args[i])));
      SignIsAtom(k);
      var sg := Sign(k);
      assert SpacesOnly(sg) && SpacesOnly(" ") && SpacesOnly("(") && SpacesOnly(")");
      SpacesOnlyConcat("(", sg);
      SpacesOnlyConcat("(" + sg, " ");
      SpacesOnlyConcat("(" + sg + " ", pj);
      SpacesOnlyConcat("(" + sg + " " + pj, ")");
      SpacesOnlyConcat("(", qj);
      SpacesOnlyConcat("(" + qj, " ");
      SpacesOnlyConcat("(" + qj + " ", sg);
      SpacesOnlyConcat("(" + qj + " " + sg, ")");
      SpacesOnlyConcat(sj, " ");
      SpacesOnlyConcat(sj + " ", sg);
  }

  lemma PadSingles()
    ensures Pad("(") == " ( " && Pad(")") == " ) " && Pad(" ") == " "
  {
    assert "("[1..] == [] && ")"[1..] == [] && " "[1..] == [];
  }

  /** Padding a bracketed pair pads each part and widens the brackets. */
  lemma PadBracketed(a: string, b: string)
    ensures Pad("(" + a + " " + b + ")") == " ( " + Pad(a) + " " + Pad(b) + " ) "
  {
    PadSingles();
    var t3 := b + ")";
    var t2 := " " + t3;
    var t1 := a + t2;
    PadConcat(b, ")");
    PadConcat(" ", t3);
    PadConcat(a, t2);
    PadConcat("(", t1);
    Regroup("(", a, " ", b, ")");
    Regroup(" ( ", Pad(a), " ", Pad(b), " ) ");
  }

  lemma Regroup<T>(p: seq<T>, q: seq<T>, r: seq<T>, s: seq<T>, t: seq<T>)
    ensures p + q + r + s + t == p + (q + (r + (s + t)))
  {
  }

  lemma WordsOfBrackets()
    ensures Words("(") == ["("] && Words(")") == [")"] && Words("") == []
  {
    WordsOfWord("(");
    WordsOfWord(")");
    WordsOfEmpty();
  }

  /** The words of a padded bracketed pair: the brackets and the parts' words. */
  lemma WordsBracketed(a: string, b: string)
    ensures Words(" ( " + a + " " + b + " ) ") == ["("] + Words(a) + Words(b) + [")"]
  {
    var s4 := ")" + " " + "";
    var s3 := b + " " + s4;
    var s2 := a + " " + s3;
    var s1 := "(" + " " + s2;
    var s0 := "" + " " + s1;
    assert s0 == " ( " + a + " " + b + " ) ";
    WordsOfBrackets();
    WordsConcat(")", "");
    assert Words(s4) == [")"];
    WordsConcat(b, s4);
    WordsConcat(a, s3);
    WordsConcat("(", s2);
    WordsConcat("", s1);
    assert Words(s0) == ["("] + (Words(a) + (Words(b) + [")"]));
  }

  /** Padding and splitting a joined list gives the parts' words in order. */
  lemma JoinedWords(parts: seq<string>, toks: seq<seq<string>>)
    requires |parts| == |toks|
    requires forall i :: 0 <= i < |parts| ==> Words(Pad(parts[i])) == toks[i]
    ensures Words(Pad(JoinSpace(parts))) == Flatten(toks)
  {
    var padded := seq(|parts|, i requires 0 <= i < |parts| => Pad(parts[i]));
    PadJoin(parts);
    WordsJoin(padded);
    assert seq(|padded|, i requires 0 <= i < |padded| => Words(padded[i])) == toks;
  }

  lemma {:induction false} PrefixWords(e: Expr)
    ensures Words(Pad(Prefix(e))) == PrefixTokens(e)
    decreases e
  {
    match e
    case Const(_) => LeafWords(e);
    case Var(_) => LeafWords(e);
    case Undefined => LeafWords(e);
    case Op(k, args) =>
      forall i | 0 <= i < |args| ensures Words(Pad(Prefix(args[i]))) == PrefixTokens(args[i]) {
        PrefixWords(args[i]);
      }
      PrefixWordsOp(k, args);
  }

  lemma PrefixWordsOp(k: OpKind, args: seq<Expr>)
    requires forall i :: 0 <= i < |args| ==> Words(Pad(Prefix(args[i]))) == PrefixTokens(args[i])
    ensures Words(Pad(Prefix(Op(k, args)))) == PrefixTokens(Op(k, args))
  {
    var parts := seq(|args|, i requires 0 <= i < |args| => Prefix(args[i]));
    var toks := seq(|args|, i requires 0 <= i < |args| => PrefixTokens(args[i]));
    JoinedWords(parts, toks);
    SignIsAtom(k);
    SignFirst(Sign(k), JoinSpace(parts), Flatten(toks));
  }

  /** `(sign rest)` splits into the bracket, the sign, the words of `rest` and the bracket. */
  lemma SignFirst(sg: string, j: string, toks: seq<string>)
    requires IsAtom(sg) && Words(Pad(j)) == toks
    ensures Words(Pad("(" + sg + " " + j + ")")) == ["(", sg] + toks + [")"]
  {
    PadNoBracket(sg);
    WordsOfWord(sg);
    PadBracketed(sg, j);
    WordsBracketed(sg, Pad(j));
  }

  /** `(rest sign)` splits into the bracket, the words of `rest`, the sign and the bracket. */
  lemma SignLast(j: string, sg: string, toks: seq<string>)
    requires IsAtom(sg) && Words(Pad(j)) == toks
    ensures Words(Pad("(" + j + " " + sg + ")")) == ["("] + toks + [sg, ")"]
  {
    PadNoBracket(sg);
    WordsOfWord(sg);
    PadBracketed(j, sg);
    WordsBracketed(Pad(j), sg);
  }

  lemma {:induction false} PostfixWords(e: Expr)
    ensures Words(Pad(Postfix(e))) == PostfixTokens(e)
    decreases e
  {
    match e
    case Const(_) => LeafWords(e);
    case Var(_) => LeafWords(e);
    case Undefined => LeafWords(e);
    case Op(k, args) =>
      var parts := seq(|args|, i requires 0 <= i < |args| => Postfix(args[i]));
      var toks := seq(|args|, i requires 0 <= i < |args| => PostfixTokens(args[i]));
      forall i | 0 <= i < |args| ensures Words(Pad(parts[i])) == toks[i] {
        PostfixWords(args[i]);
      }
      JoinedWords(parts, toks);
      SignIsAtom(k);
      SignLast(JoinSpace(parts), Sign(k), Flatten(toks));
  }

  lemma {:induction false} BareWords(e: Expr)
    ensures Words(ToString(e)) == BareTokens(e)
    decreases e
  {
    match e
    case Op(k, args) =>
      forall i | 0 <= i < |args| ensures Words(ToString(args[i])) == BareTokens(args[i]) {
        BareWords(args[i]);
      }
      BareWordsOp(k, args);
    case _ => BareLeafWords(e);
  }

  lemma BareLeafWords(e: Expr)
    requires !e.Op?
    ensures Words(ToString(e)) == BareTokens(e)
  {
    LeafWords(e);
    PadNoBracket(LeafText(e));
  }

  lemma BareWordsOp(k: OpKind, args: seq<Expr>)
    requires forall i :: 0 <= i < |args| ==> Words(ToString(args[i])) == BareTokens(args[i])
    ensures Words(ToString(Op(k, args))) == BareTokens(Op(k, args))
  {
    var parts := seq(|args|, i requires 0 <= i < |args| => ToString(args[i]));
    var toks := seq(|args|, i requires 0 <= i < |args| => BareTokens(args[i]));
    WordsJoin(parts);
    assert seq(|parts|, i requires 0 <= i < |parts| => Words(parts[i])) == toks;
    SignIsAtom(k);
    WordsConcat(JoinSpace(parts), Sign(k));
    WordsOfWord(Sign(k));
  }

  // ---------------------------------------------------------------- what the tokenizers see

  /** `getSplittedString(t.prefix())` is the prefix token list of `t`. */
  lemma TokenizePrefix(e: Expr)
    ensures Tokenize(Prefix(e)) == PrefixTokens(e)
  {
    RenderingsSpacesOnly(e);
    TrimKeepsWords(Pad(Prefix(e)));
    PrefixWords(e);
  }

  /** `getSplittedString(t.postfix())` is the postfix token list of `t`. */
  lemma TokenizePostfix(e: Expr)
    ensures Tokenize(Postfix(e)) == PostfixTokens(e)
  {
    RenderingsSpacesOnly(e);
    TrimKeepsWords(Pad(Postfix(e)));
    PostfixWords(e);
  }

  /** The stack parser's split of `t.toString()` is the bare token list of `t`. */
  lemma SplitToString(e: Expr)
    ensures SpaceTokens(ToString(e)) == BareTokens(e)
  {
    RenderingsSpacesOnly(e);
    TrimKeepsWords(ToString(e));
    BareWords(e);
  }
}
