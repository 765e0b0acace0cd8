/**
 The comment stripper of scripts/preservation-manifest.py: comments go, string
 literals keep only their quotes, everything else stays.
 */
module StripComments {

  function Rest(s: string, k: nat): string {
    if k <= |s| then s[k..] else ""
  }

  /** Characters up to the end of the line. */
  function Line(s: string): (k: nat)
    ensures k <= |s|
  {
    if s == "" || s[0] == '\n' then 0 else 1 + Line(s[1..])
  }

  predicate Closes(s: string) {
    |s| > 1 && s[0] == '*' && s[1] == '/'
  }

  /** Characters up to the end of a block comment. */
  function Block(s: string): (k: nat)
    ensures k <= |s|
  {
    if s == "" || Closes(s) then 0 else 1 + Block(s[1..])
  }

  /** Characters up to the closing quote, an escape taking two. */
  function Body(s: string): (k: nat)
    ensures k <= |s| + 1
    decreases |s|
  {
    if s == "" || s[0] == '"' then 0
    else if s[0] == '\\' then 2 + Body(Rest(s, 2))
    else 1 + Body(s[1..])
  }

  predicate Opens(s: string, c: char) {
    |s| > 1 && s[0] == '/' && s[1] == c
  }

  function Strip(s: string): string
    decreases |s|
  {
    if s == "" then ""
    else if Opens(s, '/') then Strip(s[Line(s)..])
    else if Opens(s, '*') then Strip(Rest(s, Block(s[2..]) + 4))
    else if s[0] == '"' then "\"\"" + Strip(Rest(s, Body(s[1..]) + 2))
    else [s[0]] + Strip(s[1..])
  }

  // ── The scanner's loops ──────────────────────────────────────────────────

  lemma AtLineComment(src: string, i: nat)
    requires i + 1 < |src| && src[i] == '/' && src[i + 1] == '/'
    ensures Strip(Rest(src, i)) == Strip(Rest(src, i + Line(src[i..]))) && Line(src[i..]) >= 2
  {
    assert src[i..][Line(src[i..])..] == Rest(src, i + Line(src[i..]));
  }

  lemma AtBlockComment(src: string, i: nat)
    requires i + 1 < |src| && src[i] == '/' && src[i + 1] == '*'
    ensures Strip(Rest(src, i)) == Strip(Rest(src, i + 2 + Block(src[i + 2..]) + 2))
  {
    hide Block, Strip;
    assert src[i..][2..] == src[i + 2..];
    assert Rest(src[i..], Block(src[i + 2..]) + 4) == Rest(src, i + 2 + Block(src[i + 2..]) + 2);
    StripBlock(src[i..]);
  }

  lemma StripBlock(s: string)
    requires Opens(s, '*')
    ensures Strip(s) == Strip(Rest(s, Block(s[2..]) + 4))
  {
  }

  lemma AtString(src: string, i: nat)
    requires i < |src| && src[i] == '"'
    ensures Strip(Rest(src, i)) == "\"\"" + Strip(Rest(src, i + 1 + Body(src[i + 1..]) + 1))
  {
    assert src[i..][1..] == src[i + 1..];
    assert Rest(src[i..], Body(src[i + 1..]) + 2) == Rest(src, i + 1 + Body(src[i + 1..]) + 1);
  }

  lemma AtOther(src: string, i: nat)
    requires i < |src| && src[i] != '"'
    requires !(src[i] == '/' && i + 1 < |src| && (src[i + 1] == '/' || src[i + 1] == '*'))
    ensures Strip(Rest(src, i)) == [src[i]] + Strip(Rest(src, i + 1))
  {
    assert src[i..][1..] == src[i + 1..];
  }

  method SkipLine(src: string, start: nat) returns (i: nat)
    requires start <= |src|
    ensures i == start + Line(src[start..])
  {
    i := start;
    while i < |src| && src[i] != '\n'
      invariant start <= i <= |src|
      invariant i - start + Line(src[i..]) == Line(src[start..])
      decreases |src| - i
    {
      assert src[i..][1..] == src[i + 1..];
      i := i + 1;
    }
  }

  method SkipBlock(src: string, start: nat) returns (i: nat)
    requires start <= |src|
    ensures i == start + Block(src[start..]) + 2
  {
    i := start;
    while i < |src| && !(src[i] == '*' && i + 1 < |src| && src[i + 1] == '/')
      invariant start <= i <= |src|
      invariant i - start + Block(src[i..]) == Block(src[start..])
      decreases |src| - i
    {
      assert src[i..][1..] == src[i + 1..];
      i := i + 1;
    }
    i := i + 2;
  }

  method SkipString(src: string, start: nat) returns (i: nat)
    requires start <= |src|
    ensures i == start + Body(src[start..]) + 1
  {
    i := start;
    while i < |src|
      invariant start <= i <= |src| + 1
      invariant i - start + Body(Rest(src, i)) == Body(src[start..])
      decreases |src| - i
    {
      if src[i] == '\\' {
        assert Rest(src[i..], 2) == Rest(src, i + 2);
        i := i + 2;
        continue;
      }
      if src[i] == '"' {
        break;
      }
      assert src[i..][1..] == src[i + 1..];
      i := i + 1;
    }
    i := i + 1;
  }

  /** What is out so far, followed by the stripped rest, is the stripped source. */
  predicate SoFar(src: string, out: string, i: nat) {
    out + Strip(Rest(src, i)) == Strip(src)
  }

  lemma Advance(src: string, out: string, i: nat, piece: string, j: nat)
    requires SoFar(src, out, i) && Strip(Rest(src, i)) == piece + Strip(Rest(src, j))
    ensures SoFar(src, out + piece, j)
  {
    hide Strip, Rest;
    assert out + (piece + Strip(Rest(src, j))) == (out + piece) + Strip(Rest(src, j));
  }

  lemma Skip(src: string, out: string, i: nat, j: nat)
    requires SoFar(src, out, i) && Strip(Rest(src, i)) == Strip(Rest(src, j))
    ensures SoFar(src, out, j)
  {
  }

  lemma Quote(src: string, out: string, i: nat, j: nat)
    requires SoFar(src, out, i) && Strip(Rest(src, i)) == "\"\"" + Strip(Rest(src, j))
    ensures SoFar(src, (out + "\"") + "\"", j)
  {
    Advance(src, out, i, "\"\"", j);
    assert (out + "\"") + "\"" == out + "\"\"";
  }

  lemma AtStart(src: string)
    ensures SoFar(src, "", 0)
  {
  }

  lemma AtEnd(src: string, out: string, i: nat)
    requires SoFar(src, out, i) && i >= |src|
    ensures out == Strip(src)
  {
    assert Rest(src, i) == "";
  }

  method StripComments(src: string) returns (out: string)
    ensures out == Strip(src)
  {
    hide *;
    out := "";
    var i := 0;
    AtStart(src);
    while i < |src|
      invariant SoFar(src, out, i)
      decreases |src| - i
    {
      if src[i] == '/' && i + 1 < |src| && src[i + 1] == '/' {
        AtLineComment(src, i);
        var j := SkipLine(src, i);
        Skip(src, out, i, j);
        i := j;
      } else if src[i] == '/' && i + 1 < |src| && src[i + 1] == '*' {
        AtBlockComment(src, i);
        var j := SkipBlock(src, i + 2);
        Skip(src, out, i, j);
        i := j;
      } else if src[i] == '"' {
        AtString(src, i);
        var j := SkipString(src, i + 1);
        Quote(src, out, i, j);
        out := out + "\"";
        out := out + "\"";
        i := j;
      } else {
        AtOther(src, i);
        Advance(src, out, i, [src[i]], i + 1);
        out, i := out + [src[i]], i + 1;
      }
    }
    AtEnd(src, out, i);
  }

  // ── What is left ─────────────────────────────────────────────────────────

  predicate NoComment(t: string) {
    forall k :: 0 <= k && k + 1 < |t| ==> !(t[k] == '/' && (t[k + 1] == '/' || t[k + 1] == '*'))
  }

  /** Every quote is one of two adjacent ones. */
  predicate Paired(t: string) {
    if t == "" then true
    else if t[0] == '"' then |t| > 1 && t[1] == '"' && Paired(t[2..])
    else Paired(t[1..])
  }

  predicate Normal(t: string) {
    NoComment(t) && Paired(t)
  }

  lemma Prepend(c: char, t: string)
    requires Normal(t) && c != '"' && !(c == '/' && t != "" && (t[0] == '/' || t[0] == '*'))
    ensures Normal([c] + t)
  {
    assert ([c] + t)[1..] == t;
    forall k | 0 <= k && k + 1 < |[c] + t|
      ensures !(([c] + t)[k] == '/' && (([c] + t)[k + 1] == '/' || ([c] + t)[k + 1] == '*'))
    {
      if k > 0 { assert ([c] + t)[k] == t[k - 1] && ([c] + t)[k + 1] == t[k]; }
    }
  }

  lemma PrependQuotes(t: string)
    requires Normal(t)
    ensures Normal("\"\"" + t)
  {
    var u := "\"\"" + t;
    assert u[2..] == t;
    forall k | 0 <= k && k + 1 < |u| ensures !(u[k] == '/' && (u[k + 1] == '/' || u[k + 1] == '*')) {
      if k > 1 { assert u[k] == t[k - 2] && u[k + 1] == t[k - 1]; }
    }
  }

  /** For every input, unterminated ones included: no comment is left and every string literal is empty. */
  lemma {:induction false} StripIsNormal(s: string)
    ensures Normal(Strip(s))
    decreases |s|
  {
    hide Line, Block, Body, Normal;
    if s == "" {
      EmptyIsNormal();
    } else if Opens(s, '/') {
      LineIsLong(s);
      StripIsNormal(s[Line(s)..]);
    } else if Opens(s, '*') {
      StripIsNormal(Rest(s, Block(s[2..]) + 4));
    } else if s[0] == '"' {
      StripIsNormal(Rest(s, Body(s[1..]) + 2));
      PrependQuotes(Strip(Rest(s, Body(s[1..]) + 2)));
    } else {
      StripIsNormal(s[1..]);
      Prepend(s[0], Strip(s[1..]));
    }
  }

  lemma EmptyIsNormal()
    ensures Normal("")
  {
  }

  lemma LineIsLong(s: string)
    requires Opens(s, '/')
    ensures Line(s) >= 2
  {
  }

  /** What is already normal is kept as it is. */
  lemma {:induction false} NormalIsKept(t: string)
    requires Normal(t)
    ensures Strip(t) == t
    decreases |t|
  {
    if t == "" {
    } else if t[0] == '"' {
      var rest := t[2..];
      assert Normal(rest) by {
        forall k | 0 <= k && k + 1 < |rest| ensures !(rest[k] == '/' && (rest[k + 1] == '/' || rest[k + 1] == '*')) {
          assert rest[k] == t[k + 2] && rest[k + 1] == t[k + 3];
        }
      }
      NormalIsKept(rest);
      assert Body(t[1..]) == 0;
      assert t == "\"\"" + rest;
    } else {
      var rest := t[1..];
      assert Normal(rest) by {
        forall k | 0 <= k && k + 1 < |rest| ensures !(rest[k] == '/' && (rest[k + 1] == '/' || rest[k + 1] == '*')) {
          assert rest[k] == t[k + 1] && rest[k + 1] == t[k + 2];
        }
      }
      NormalIsKept(rest);
      assert !Opens(t, '/') && !Opens(t, '*');
      assert t == [t[0]] + rest;
    }
  }

  /** Stripping is idempotent, and its fixed points are exactly the normal texts. */
  lemma StripTwice(s: string)
    ensures Strip(Strip(s)) == Strip(s)
    ensures Strip(s) == s <==> Normal(s)
  {
    StripIsNormal(s);
    NormalIsKept(Strip(s));
    if Normal(s) { NormalIsKept(s); }
  }

  // ── Against the tokens of the source ─────────────────────────────────────

  datatype Piece = Ordinary(c: char) | Escaped(c: char)

  datatype Token =
    | Plain(c: char)
    | LineComment(text: string)
    | BlockComment(text: string)
    | Literal(pieces: seq<Piece>)

  function PiecesText(ps: seq<Piece>): string {
    if ps == [] then ""
    else (if ps[0].Ordinary? then [ps[0].c] else ['\\', ps[0].c]) + PiecesText(ps[1..])
  }

  function TokenText(t: Token): string {
    match t
    case Plain(c) => [c]
    case LineComment(text) => "//" + text
    case BlockComment(text) => "/*" + text + "*/"
    case Literal(ps) => "\"" + PiecesText(ps) + "\""
  }

  function Text(ts: seq<Token>): string {
    if ts == [] then "" else TokenText(ts[0]) + Text(ts[1..])
  }

  predicate GoodPieces(ps: seq<Piece>) {
    forall k :: 0 <= k < |ps| && ps[k].Ordinary? ==> ps[k].c != '"' && ps[k].c != '\\'
  }

  /** The text ends a block comment at its very end and nowhere before. */
  predicate EndsOnlyAtEnd(t: string) {
    forall k :: 0 <= k && k + 2 < |t| ==> !(t[k] == '*' && t[k + 1] == '/')
  }

  /** A token that reads as itself before the given rest. */
  predicate Fits(t: Token, rest: string) {
    match t
    case Plain(c) => c != '"' && !(c == '/' && rest != "" && (rest[0] == '/' || rest[0] == '*'))
    case LineComment(text) => '\n' !in text && (rest == "" || rest[0] == '\n')
    case BlockComment(text) => EndsOnlyAtEnd(text + "*/")
    case Literal(ps) => GoodPieces(ps)
  }

  predicate AllFit(ts: seq<Token>) {
    ts != [] ==> Fits(ts[0], Text(ts[1..])) && AllFit(ts[1..])
  }

  /** Comments erased, string literals emptied. */
  function Erased(ts: seq<Token>): string {
    if ts == [] then ""
    else (match ts[0]
          case Plain(c) => [c]
          case LineComment(_) => ""
          case BlockComment(_) => ""
          case Literal(_) => "\"\"") + Erased(ts[1..])
  }

  lemma {:induction false} LineLength(text: string, rest: string)
    requires '\n' !in text && (rest == "" || rest[0] == '\n')
    ensures Line(text + rest) == |text|
  {
    if text == "" {
      assert text + rest == rest;
    } else {
      assert (text + rest)[1..] == text[1..] + rest;
      LineLength(text[1..], rest);
    }
  }

  lemma {:induction false} BlockLength(text: string, rest: string)
    requires EndsOnlyAtEnd(text + "*/")
    ensures Block(text + "*/" + rest) == |text|
  {
    var s := text + "*/";
    if text == "" {
      assert Closes(s + rest);
    } else {
      assert s[1..] == text[1..] + "*/";
      assert (s + rest)[1..] == text[1..] + "*/" + rest;
      assert !Closes(s + rest) by {
        assert (s + rest)[0] == s[0] && (s + rest)[1] == s[1];
      }
      assert EndsOnlyAtEnd(s[1..]) by {
        forall k | 0 <= k && k + 2 < |s[1..]| ensures !(s[1..][k] == '*' && s[1..][k + 1] == '/') {
          assert s[1..][k] == s[k + 1] && s[1..][k + 1] == s[k + 2];
        }
      }
      BlockLength(text[1..], rest);
    }
  }

  lemma {:induction false} BodyLength(ps: seq<Piece>, rest: string)
    requires GoodPieces(ps)
    ensures Body(PiecesText(ps) + "\"" + rest) == |PiecesText(ps)|
  {
    var s := PiecesText(ps) + "\"" + rest;
    if ps != [] {
      var more := PiecesText(ps[1..]) + "\"" + rest;
      BodyLength(ps[1..], rest);
      if ps[0].Ordinary? {
        assert s == [ps[0].c] + more;
        assert s[1..] == more;
      } else {
        assert s == ['\\', ps[0].c] + more;
        assert Rest(s, 2) == more;
      }
    }
  }

  /** Stripping the text of any tokens keeps what is neither comment nor string. */
  lemma {:induction false} StripErases(ts: seq<Token>)
    requires AllFit(ts)
    ensures Strip(Text(ts)) == Erased(ts)
  {
    if ts != [] {
      StripErases(ts[1..]);
      StripToken(ts[0], Text(ts[1..]));
    }
  }

  lemma StripToken(t: Token, rest: string)
    requires Fits(t, rest)
    ensures Strip(TokenText(t) + rest)
         == (match t
             case Plain(c) => [c]
             case LineComment(_) => ""
             case BlockComment(_) => ""
             case Literal(_) => "\"\"") + Strip(rest)
  {
    hide Strip, GoodPieces, EndsOnlyAtEnd, PiecesText;
    match t
    case Plain(c) => StripPlain(c, rest);
    case LineComment(text) => StripLineComment(text, rest);
    case BlockComment(text) => StripBlockComment(text, rest);
    case Literal(ps) => StripLiteral(ps, rest);
  }

  lemma StripPlain(c: char, rest: string)
    requires c != '"' && !(c == '/' && rest != "" && (rest[0] == '/' || rest[0] == '*'))
    ensures Strip([c] + rest) == [c] + Strip(rest)
  {
    assert ([c] + rest)[1..] == rest;
  }

  lemma StripLineComment(text: string, rest: string)
    requires '\n' !in text && (rest == "" || rest[0] == '\n')
    ensures Strip("//" + text + rest) == "" + Strip(rest)
  {
    var s := "//" + text + rest;
    LineLength("//" + text, rest);
    hide Line;
    assert s == ("//" + text) + rest;
    assert s[Line(s)..] == rest;
    assert "" + Strip(rest) == Strip(rest);
  }

  lemma StripBlockComment(text: string, rest: string)
    requires EndsOnlyAtEnd(text + "*/")
    ensures Strip("/*" + text + "*/" + rest) == "" + Strip(rest)
  {
    hide Block, EndsOnlyAtEnd, Strip;
    var s := "/*" + text + "*/" + rest;
    assert s[2..] == text + "*/" + rest;
    BlockLength(text, rest);
    StripBlock(s);
    assert Rest(s, Block(s[2..]) + 4) == rest;
    assert "" + Strip(rest) == Strip(rest);
  }

  lemma StripLiteral(ps: seq<Piece>, rest: string)
    requires GoodPieces(ps)
    ensures Strip("\"" + PiecesText(ps) + "\"" + rest) == "\"\"" + Strip(rest)
  {
    hide Body, PiecesText, GoodPieces;
    var s := "\"" + PiecesText(ps) + "\"" + rest;
    assert s[1..] == PiecesText(ps) + "\"" + rest;
    BodyLength(ps, rest);
    assert Rest(s, Body(s[1..]) + 2) == rest;
  }
}
