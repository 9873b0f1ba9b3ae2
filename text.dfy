/** String operations the tokenizers are built from: the host's `trim`,
    `split(' ')`, the empty-piece filter and the bracket padding of
    `getSplittedString` (objectExpression.js:250-254). */
module Text {

  /** The characters `String.prototype.trim` removes: the host's WhiteSpace
      and LineTerminator characters. */
  predicate IsWhitespace(c: char) {
    c == '\t' || c == '\n' || c == '\U{000B}' || c == '\U{000C}' || c == '\r' || c == ' '
    || c == '\U{00A0}' || c == '\U{1680}' || ('\U{2000}' <= c <= '\U{200A}')
    || c == '\U{2028}' || c == '\U{2029}' || c == '\U{202F}' || c == '\U{205F}'
    || c == '\U{3000}' || c == '\U{FEFF}'
  }

  predicate IsBracket(c: char) {
    c == '(' || c == ')'
  }

  /** Text whose only whitespace character is the plain space. */
  predicate SpacesOnly(s: string) {
    forall i :: 0 <= i < |s| && IsWhitespace(s[i]) ==> s[i] == ' '
  }

  /** Text with no whitespace and no bracket at all: one token as it stands. */
  predicate IsAtom(s: string) {
    |s| > 0 && forall i :: 0 <= i < |s| ==> !IsWhitespace(s[i]) && !IsBracket(s[i])
  }

  // ---------------------------------------------------------------- trim

  /** Drops the whitespace at the front. */
  function TrimStart(s: string): (r: string)
    ensures |r| <= |s| && r == s[|s| - |r|..]
    ensures r == [] || !IsWhitespace(r[0])
    ensures forall i :: 0 <= i < |s| - |r| ==> IsWhitespace(s[i])
  {
    if s != [] && IsWhitespace(s[0]) then
      var r := TrimStart(s[1..]);
      assert forall i :: 1 <= i < |s| ==> s[i] == s[1..][i - 1];
      r
    else s
  }

  /** Drops the whitespace at the back. */
  function TrimEnd(s: string): (r: string)
    ensures |r| <= |s| && r == s[..|r|]
    ensures r == [] || !IsWhitespace(r[|r| - 1])
    ensures forall i :: |r| <= i < |s| ==> IsWhitespace(s[i])
  {
    if s != [] && IsWhitespace(s[|s| - 1]) then
      var r := TrimEnd(s[..|s| - 1]);
      assert forall i :: 0 <= i < |s| - 1 ==> s[i] == s[..|s| - 1][i];
      r
    else s
  }

  /** `str.trim()`: the longest middle slice that neither starts nor ends with whitespace. */
  function Trim(s: string): (r: string)
    ensures exists lo, hi :: (0 <= lo <= hi <= |s| && r == s[lo..hi]
      && (forall i :: 0 <= i < lo ==> IsWhitespace(s[i]))
      && (forall i :: hi <= i < |s| ==> IsWhitespace(s[i])))
    ensures r == [] || (!IsWhitespace(r[0]) && !IsWhitespace(r[|r| - 1]))
  {
    var t := TrimStart(s);
    var r := TrimEnd(t);
    assert r == s[|s| - |t|..|s| - |t| + |r|];
    r
  }

  // ---------------------------------------------------------------- split and filter

  /** `s.split(' ')`: the pieces between single spaces, empty pieces included,
      so the result is never empty. */
  function SplitOnSpace(s: string): (r: seq<string>)
    ensures |r| >= 1
    ensures |r[0]| <= |s| && r[0] == s[..|r[0]|]
    ensures forall k :: 0 <= k < |r| ==> ' ' !in r[k]
  {
    if s == [] then [""]
    else
      var rest := SplitOnSpace(s[1..]);
      if s[0] == ' ' then [""] + rest
      else [[s[0]] + rest[0]] + rest[1..]
  }

  /** `.filter(el => el !== "")`. */
  function DropEmpty(pieces: seq<string>): (r: seq<string>)
    ensures forall k :: 0 <= k < |r| ==> r[k] != [] && r[k] in pieces
  {
    if pieces == [] then []
    else if pieces[0] == "" then DropEmpty(pieces[1..])
    else [pieces[0]] + DropEmpty(pieces[1..])
  }

  /** `s.split(' ').filter(el => el !== "")`: the maximal runs of non-space characters. */
  function Words(s: string): seq<string> {
    DropEmpty(SplitOnSpace(s))
  }

  /** `str.trim().split(' ').filter(el => el !== "")`, the token list of the
      bracket-free stack parser (objectExpression.js:393). */
  function SpaceTokens(s: string): seq<string> {
    Words(Trim(s))
  }

  // ---------------------------------------------------------------- bracket padding

  /** The two `replaceAll` calls of objectExpression.js:251-252: every `(`
      becomes ` ( ` and every `)` becomes ` ) `. The replacements contain no
      bracket of the other kind, so doing them one after the other is the same
      as rewriting each character on its own. */
  function Pad(s: string): (r: string)
    ensures SpacesOnly(s) ==> SpacesOnly(r)
  {
    if s == [] then []
    else (if s[0] == '(' then " ( " else if s[0] == ')' then " ) " else [s[0]]) + Pad(s[1..])
  }

  /** `getSplittedString` (objectExpression.js:250-254): every token is
      non-empty and space-free, and a token holding a bracket is that bracket
      alone. */
  function Tokenize(s: string): (r: seq<string>)
    ensures forall k :: 0 <= k < |r| ==> r[k] != [] && ' ' !in r[k]
    ensures forall k, j :: 0 <= k < |r| && 0 <= j < |r[k]| && IsBracket(r[k][j]) ==> r[k] == [r[k][j]]
  {
    PadIsolates(s);
    TrimKeepsIsolation(Pad(s));
    WordsKeepBracketsApart(Trim(Pad(s)));
    Words(Trim(Pad(s)))
  }

  // ---------------------------------------------------------------- join

  /** `xs.join(" ")`. */
  function JoinSpace(xs: seq<string>): string {
    if xs == [] then ""
    else if |xs| == 1 then xs[0]
    else xs[0] + " " + JoinSpace(xs[1..])
  }

  /** Concatenation of a list of lists (of tokens, or of characters). */
  function Flatten<T>(xss: seq<seq<T>>): (r: seq<T>)
    ensures |r| == SumLengths(xss)
  {
    if xss == [] then [] else xss[0] + Flatten(xss[1..])
  }

  function SumLengths<T>(xss: seq<seq<T>>): nat {
    if xss == [] then 0 else |xss[0]| + SumLengths(xss[1..])
  }

  // ---------------------------------------------------------------- facts about split

  lemma {:induction false} SplitOnSpaceConcat(a: string, b: string)
    ensures SplitOnSpace(a + " " + b) == SplitOnSpace(a) + SplitOnSpace(b)
    decreases |a|
  {
    if a == [] {
      assert a + " " + b == " " + b;
      assert (" " + b)[1..] == b;
    } else {
      assert (a + " " + b)[0] == a[0];
      assert (a + " " + b)[1..] == a[1..] + " " + b;
      SplitOnSpaceConcat(a[1..], b);
    }
  }

  lemma {:induction false} DropEmptyConcat(p: seq<string>, q: seq<string>)
    ensures DropEmpty(p + q) == DropEmpty(p) + DropEmpty(q)
    decreases |p|
  {
    if p == [] {
      assert p + q == q;
    } else {
      assert (p + q)[0] == p[0];
      assert (p + q)[1..] == p[1..] + q;
      DropEmptyConcat(p[1..], q);
    }
  }

  /** Splitting at a single space distributes over the two sides. */
  lemma WordsConcat(a: string, b: string)
    ensures Words(a + " " + b) == Words(a) + Words(b)
  {
    SplitOnSpaceConcat(a, b);
    DropEmptyConcat(SplitOnSpace(a), SplitOnSpace(b));
  }

  lemma {:induction false} SplitOnSpaceNoSpace(w: string)
    requires ' ' !in w
    ensures SplitOnSpace(w) == [w]
    decreases |w|
  {
    if w != [] {
      assert ' ' !in w[1..] by {
        forall i | 0 <= i < |w[1..]| ensures w[1..][i] != ' ' { assert w[1..][i] == w[i + 1]; }
      }
      SplitOnSpaceNoSpace(w[1..]);
      assert [w[0]] + w[1..] == w;
    }
  }

  /** A space-free word is one token. */
  lemma WordsOfWord(w: string)
    requires w != [] && ' ' !in w
    ensures Words(w) == [w]
  {
    SplitOnSpaceNoSpace(w);
    assert DropEmpty([w]) == [w] + DropEmpty([]);
  }

  lemma WordsOfEmpty()
    ensures Words("") == []
  {
  }

  predicate AllSpaces(s: string) {
    forall i :: 0 <= i < |s| ==> s[i] == ' '
  }

  lemma {:induction false} LeadingSpaces(p: string, x: string)
    requires AllSpaces(p)
    ensures Words(p + x) == Words(x)
    decreases |p|
  {
    if p == [] {
      assert p + x == x;
    } else {
      assert p[0] == ' ';
      assert AllSpaces(p[1..]) by {
        forall i | 0 <= i < |p[1..]| ensures p[1..][i] == ' ' { assert p[1..][i] == p[i + 1]; }
      }
      assert p + x == "" + " " + (p[1..] + x);
      WordsConcat("", p[1..] + x);
      WordsOfEmpty();
      assert Words(p + x) == Words(p[1..] + x);
      LeadingSpaces(p[1..], x);
    }
  }

  lemma {:induction false} TrailingSpaces(x: string, p: string)
    requires AllSpaces(p)
    ensures Words(x + p) == Words(x)
    decreases |p|
  {
    if p == [] {
      assert x + p == x;
    } else {
      assert p[0] == ' ';
      assert AllSpaces(p[1..]) by {
        forall i | 0 <= i < |p[1..]| ensures p[1..][i] == ' ' { assert p[1..][i] == p[i + 1]; }
      }
      assert x + p == x + " " + p[1..];
      WordsConcat(x, p[1..]);
      LeadingSpaces(p[1..], "");
      assert p[1..] + "" == p[1..];
      WordsOfEmpty();
    }
  }

  /** When the only whitespace is the plain space, trimming does not change the words. */
  lemma TrimKeepsWords(s: string)
    requires SpacesOnly(s)
    ensures Words(Trim(s)) == Words(s)
  {
    var lo, hi :| 0 <= lo <= hi <= |s| && Trim(s) == s[lo..hi]
      && (forall i :: 0 <= i < lo ==> IsWhitespace(s[i]))
      && (forall i :: hi <= i < |s| ==> IsWhitespace(s[i]));
    assert s == s[..lo] + s[lo..hi] + s[hi..];
    assert AllSpaces(s[..lo]);
    assert AllSpaces(s[hi..]);
    LeadingSpaces(s[..lo], s[lo..hi] + s[hi..]);
    assert s[..lo] + (s[lo..hi] + s[hi..]) == s;
    TrailingSpaces(s[lo..hi], s[hi..]);
  }

  // ---------------------------------------------------------------- facts about padding

  lemma {:induction false} PadConcat(a: string, b: string)
    ensures Pad(a + b) == Pad(a) + Pad(b)
    decreases |a|
  {
    if a == [] {
      assert a + b == b;
    } else {
      assert (a + b)[0] == a[0];
      assert (a + b)[1..] == a[1..] + b;
      PadConcat(a[1..], b);
    }
  }

  /** Text without brackets is left alone by the padding. */
  lemma {:induction false} PadNoBracket(w: string)
    requires forall i :: 0 <= i < |w| ==> !IsBracket(w[i])
    ensures Pad(w) == w
    decreases |w|
  {
    if w != [] {
      PadNoBracket(w[1..]);
      assert [w[0]] + w[1..] == w;
    }
  }

  /** Every bracket of `s` is strictly inside and has a space on either side. */
  predicate Padded(s: string) {
    forall i :: 0 <= i < |s| && IsBracket(s[i]) ==> 0 < i < |s| - 1 && s[i - 1] == ' ' && s[i + 1] == ' '
  }

  /** Every bracket of `s` has a space, or the end of the text, on either side. */
  predicate Isolated(s: string) {
    forall i :: 0 <= i < |s| && IsBracket(s[i]) ==> (i == 0 || s[i - 1] == ' ') && (i == |s| - 1 || s[i + 1] == ' ')
  }

  lemma {:induction false} PadIsolates(s: string)
    ensures Padded(Pad(s))
    decreases |s|
  {
    if s != [] {
      PadIsolates(s[1..]);
      var head := if s[0] == '(' then " ( " else if s[0] == ')' then " ) " else [s[0]];
      var r := Pad(s);
      assert r == head + Pad(s[1..]);
      forall i | 0 <= i < |r| && IsBracket(r[i])
        ensures 0 < i < |r| - 1 && r[i - 1] == ' ' && r[i + 1] == ' '
      {
        if i >= |head| {
          assert r[i] == Pad(s[1..])[i - |head|];
          assert r[i - 1] == Pad(s[1..])[i - 1 - |head|];
          assert r[i + 1] == Pad(s[1..])[i + 1 - |head|];
        }
      }
    }
  }

  lemma TrimKeepsIsolation(s: string)
    requires Padded(s)
    ensures Isolated(Trim(s))
  {
    var lo, hi :| 0 <= lo <= hi <= |s| && Trim(s) == s[lo..hi];
    SliceKeepsIsolation(s, lo, hi);
  }

  /** Any slice of a padded text keeps its brackets isolated. */
  lemma SliceKeepsIsolation(s: string, lo: nat, hi: nat)
    requires Padded(s) && lo <= hi <= |s|
    ensures Isolated(s[lo..hi])
  {
    var r := s[lo..hi];
    forall j | 0 <= j < |r| && IsBracket(r[j])
      ensures (j == 0 || r[j - 1] == ' ') && (j == |r| - 1 || r[j + 1] == ' ')
    {
      assert r[j] == s[lo + j];
      if j > 0 { assert r[j - 1] == s[lo + j - 1]; }
      if j < |r| - 1 { assert r[j + 1] == s[lo + j + 1]; }
    }
  }

  lemma {:induction false} SplitKeepsBracketsApart(s: string)
    requires Isolated(s)
    ensures forall k, j :: (0 <= k < |SplitOnSpace(s)| && 0 <= j < |SplitOnSpace(s)[k]| && IsBracket(SplitOnSpace(s)[k][j])
      ==> SplitOnSpace(s)[k] == [SplitOnSpace(s)[k][j]])
    decreases |s|
  {
    if s != [] {
      var tail := s[1..];
      assert Isolated(tail) by {
        forall i | 0 <= i < |tail| && IsBracket(tail[i])
          ensures (i == 0 || tail[i - 1] == ' ') && (i == |tail| - 1 || tail[i + 1] == ' ')
        {
          assert tail[i] == s[i + 1];
        }
      }
      SplitKeepsBracketsApart(tail);
      var rest := SplitOnSpace(tail);
      if s[0] != ' ' {
        var r := SplitOnSpace(s);
        assert r == [[s[0]] + rest[0]] + rest[1..];
        if IsBracket(s[0]) {
          if tail != [] {
            assert s[1] == ' ';
            assert rest == [""] + SplitOnSpace(tail[1..]);
          }
          assert rest[0] == "";
        } else {
          forall j | 0 <= j < |rest[0]| ensures !IsBracket(rest[0][j]) {
          }
          forall j | 0 <= j < |r[0]| ensures !IsBracket(r[0][j]) {
            if j > 0 { assert r[0][j] == rest[0][j - 1]; }
          }
        }
        forall k, j | 0 <= k < |r| && 0 <= j < |r[k]| && IsBracket(r[k][j]) ensures r[k] == [r[k][j]] {
          if k > 0 { assert r[k] == rest[k]; }
        }
      }
    }
  }

  lemma WordsKeepBracketsApart(s: string)
    requires Isolated(s)
    ensures forall k, j :: (0 <= k < |Words(s)| && 0 <= j < |Words(s)[k]| && IsBracket(Words(s)[k][j])
      ==> Words(s)[k] == [Words(s)[k][j]])
  {
    var pieces := SplitOnSpace(s);
    SplitKeepsBracketsApart(s);
    var w := Words(s);
    forall k, j | 0 <= k < |w| && 0 <= j < |w[k]| && IsBracket(w[k][j]) ensures w[k] == [w[k][j]] {
      assert w[k] in pieces;
      var m :| 0 <= m < |pieces| && pieces[m] == w[k];
    }
  }

  // ---------------------------------------------------------------- what the tokens are made of

  /** The text with every space removed. */
  function RemoveSpaces(s: string): string {
    if s == [] then [] else (if s[0] == ' ' then [] else [s[0]]) + RemoveSpaces(s[1..])
  }

  lemma {:induction false} RemoveSpacesConcat(a: string, b: string)
    ensures RemoveSpaces(a + b) == RemoveSpaces(a) + RemoveSpaces(b)
    decreases |a|
  {
    if a == [] {
      assert a + b == b;
    } else {
      assert (a + b)[0] == a[0];
      assert (a + b)[1..] == a[1..] + b;
      RemoveSpacesConcat(a[1..], b);
    }
  }

  lemma {:induction false} FlattenConcat<T>(p: seq<seq<T>>, q: seq<seq<T>>)
    ensures Flatten(p + q) == Flatten(p) + Flatten(q)
    decreases |p|
  {
    if p == [] {
      assert p + q == q;
    } else {
      assert (p + q)[0] == p[0];
      assert (p + q)[1..] == p[1..] + q;
      FlattenConcat(p[1..], q);
    }
  }

  lemma {:induction false} FlattenDropEmpty(p: seq<string>)
    ensures Flatten(DropEmpty(p)) == Flatten(p)
    decreases |p|
  {
    if p != [] {
      FlattenDropEmpty(p[1..]);
    }
  }

  lemma {:induction false} FlattenSplit(s: string)
    ensures Flatten(SplitOnSpace(s)) == RemoveSpaces(s)
    decreases |s|
  {
    if s != [] {
      FlattenSplit(s[1..]);
      var rest := SplitOnSpace(s[1..]);
      if s[0] == ' ' {
        FlattenEmptyHead(rest);
      } else {
        FlattenGrowHead(s[0], rest);
      }
    }
  }

  lemma FlattenEmptyHead<T>(rest: seq<seq<T>>)
    ensures Flatten([[]] + rest) == Flatten(rest)
  {
    assert ([[]] + rest)[1..] == rest;
  }

  lemma FlattenGrowHead<T>(c: T, rest: seq<seq<T>>)
    requires |rest| >= 1
    ensures Flatten([[c] + rest[0]] + rest[1..]) == [c] + Flatten(rest)
  {
    assert ([[c] + rest[0]] + rest[1..])[1..] == rest[1..];
  }

  lemma {:induction false} PadRemoveSpaces(s: string)
    ensures RemoveSpaces(Pad(s)) == RemoveSpaces(s)
    decreases |s|
  {
    if s != [] {
      var head := if s[0] == '(' then " ( " else if s[0] == ')' then " ) " else [s[0]];
      assert RemoveSpaces(head) == RemoveSpaces([s[0]]) by {
        if IsBracket(s[0]) {
          assert head == " " + [s[0]] + " ";
          RemoveSpacesConcat(" " + [s[0]], " ");
          RemoveSpacesConcat(" ", [s[0]]);
        }
      }
      RemoveSpacesConcat(head, Pad(s[1..]));
      RemoveSpacesConcat([s[0]], s[1..]);
      assert s == [s[0]] + s[1..];
      PadRemoveSpaces(s[1..]);
    }
  }

  /** Tokenizing loses nothing but spaces: when the input's only whitespace is
      the plain space, the tokens laid end to end give back the input with its
      spaces removed. With the bracket property of `Tokenize`, every bracket of
      the input is a token of its own. */
  lemma TokensSpellInput(s: string)
    requires SpacesOnly(s)
    ensures Flatten(Tokenize(s)) == RemoveSpaces(s)
  {
    TrimKeepsWords(Pad(s));
    FlattenDropEmpty(SplitOnSpace(Pad(s)));
    FlattenSplit(Pad(s));
    PadRemoveSpaces(s);
  }

  /** Only the plain space separates tokens: a bracket-free, space-free text
      that neither starts nor ends with whitespace is one token, tabs and line
      breaks inside it included. */
  lemma OnlySpaceSeparates(s: string)
    requires s != [] && ' ' !in s
    requires forall i :: 0 <= i < |s| ==> !IsBracket(s[i])
    requires !IsWhitespace(s[0]) && !IsWhitespace(s[|s| - 1])
    ensures Tokenize(s) == [s]
  {
    PadNoBracket(s);
    assert TrimStart(s) == s;
    assert TrimEnd(s) == s;
    WordsOfWord(s);
  }
}
