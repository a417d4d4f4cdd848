/** The header check of utils/jwt_auth.py:65-69, the regular expression
      ^Bearer [a-zA-Z0-9]+.[a-zA-Z0-9]+.[a-zA-Z0-9]+.[a-zA-Z0-9]+.?[a-zA-Z0-9\-_=]+$
    written as a matcher over a small pattern language. As in Python's `re`, an unescaped
    `.` matches any character except a newline, and `$` matches at the end of the string
    or just before a newline that ends it. */
module HeaderPattern {
  import Settings

  datatype CharClass = Alnum | TokenTail

  /** One element of the pattern: a literal character, `.`, `.?`, or `[...]+`. */
  datatype Elem = Lit(ch: char) | Any | OptAny | Plus(cls: CharClass)

  predicate IsAlnum(ch: char) {
    ('a' <= ch <= 'z') || ('A' <= ch <= 'Z') || ('0' <= ch <= '9')
  }

  /** [a-zA-Z0-9] and [a-zA-Z0-9\-_=]. */
  predicate InClass(c: CharClass, ch: char) {
    match c
    case Alnum => IsAlnum(ch)
    case TokenTail => IsAlnum(ch) || ch == '-' || ch == '_' || ch == '='
  }

  function Literal(w: string): (p: seq<Elem>)
    ensures |p| == |w| && forall i :: 0 <= i < |w| ==> p[i] == Lit(w[i])
  {
    seq(|w|, i requires 0 <= i < |w| => Lit(w[i]))
  }

  /** The token part of the pattern. */
  const TokenPattern: seq<Elem> :=
    [Plus(Alnum), Any, Plus(Alnum), Any, Plus(Alnum), Any, Plus(Alnum), OptAny, Plus(TokenTail)]

  /** The whole header pattern, with the configured type and one space in front. */
  function HeaderElems(): seq<Elem> {
    Literal(Settings.AuthHeaderType + " ") + TokenPattern
  }

  /** Does the pattern match all of `s`? Backtracking as the regular-expression engine does. */
  function Match(p: seq<Elem>, s: string): bool
    decreases |s|, |p|
  {
    if p == [] then s == []
    else match p[0]
      case Lit(ch) => |s| > 0 && s[0] == ch && Match(p[1..], s[1..])
      case Any => |s| > 0 && s[0] != '\n' && Match(p[1..], s[1..])
      case OptAny => Match(p[1..], s) || (|s| > 0 && s[0] != '\n' && Match(p[1..], s[1..]))
      case Plus(c) => |s| > 0 && InClass(c, s[0]) && (Match(p[1..], s[1..]) || Match(p, s[1..]))
  }

  /** `re.match(pattern + '$', s)`: a full match, or a full match of `s` without a final newline. */
  predicate MatchToEnd(p: seq<Elem>, s: string) {
    Match(p, s) || (|s| > 0 && s[|s| - 1] == '\n' && Match(p, s[..|s| - 1]))
  }

  /** check_http_auth_header's test. */
  predicate HeaderMatches(h: string) {
    MatchToEnd(HeaderElems(), h)
  }

  // ---------------------------------------------------------------------------------
  // The meaning of a pattern, stated independently of the matcher: `s` splits into one
  // piece per element, and each piece is what its element accepts.

  function Concat(parts: seq<string>): string {
    if parts == [] then [] else parts[0] + Concat(parts[1..])
  }

  predicate PieceMatches(e: Elem, piece: string) {
    match e
    case Lit(ch) => piece == [ch]
    case Any => |piece| == 1 && piece[0] != '\n'
    case OptAny => |piece| <= 1 && (|piece| == 1 ==> piece[0] != '\n')
    case Plus(c) => |piece| >= 1 && forall i :: 0 <= i < |piece| ==> InClass(c, piece[i])
  }

  ghost predicate IsSplit(p: seq<Elem>, s: string, parts: seq<string>) {
    |parts| == |p| && Concat(parts) == s
    && forall i :: 0 <= i < |p| ==> PieceMatches(p[i], parts[i])
  }

  ghost predicate Denotes(p: seq<Elem>, s: string) {
    exists parts :: IsSplit(p, s, parts)
  }

  lemma ConcatCons(a: string, rest: seq<string>)
    ensures Concat([a] + rest) == a + Concat(rest)
  {
    assert ([a] + rest)[1..] == rest;
  }

  /** The pieces of a successful match. */
  ghost function Pieces(p: seq<Elem>, s: string): (parts: seq<string>)
    requires Match(p, s)
    ensures IsSplit(p, s, parts)
    decreases |s|, |p|
  {
    if p == [] then []
    else match p[0]
      case Lit(_) => ConcatCons(s[..1], Pieces(p[1..], s[1..])); [s[..1]] + Pieces(p[1..], s[1..])
      case Any => ConcatCons(s[..1], Pieces(p[1..], s[1..])); [s[..1]] + Pieces(p[1..], s[1..])
      case OptAny =>
        if Match(p[1..], s) then
          ConcatCons([], Pieces(p[1..], s)); [[]] + Pieces(p[1..], s)
        else
          ConcatCons(s[..1], Pieces(p[1..], s[1..])); [s[..1]] + Pieces(p[1..], s[1..])
      case Plus(c) =>
        if Match(p[1..], s[1..]) then
          ConcatCons(s[..1], Pieces(p[1..], s[1..])); [s[..1]] + Pieces(p[1..], s[1..])
        else
          var r := Pieces(p, s[1..]);
          var first := [s[0]] + r[0];
          assert Concat(r) == r[0] + Concat(r[1..]);
          ConcatCons(first, r[1..]);
          assert [first] + r[1..] == r[0 := first];
          assert forall k :: 0 <= k < |first| ==> first[k] == if k == 0 then s[0] else r[0][k - 1];
          r[0 := first]
  }

  /** A nonempty run of class characters followed by a match of the rest is a match of the
      pattern that starts with that class's `+`. */
  lemma {:induction false} PlusComplete(p: seq<Elem>, c: CharClass, piece: string, tail: string)
    requires |p| > 0 && p[0] == Plus(c)
    requires |piece| >= 1 && forall i :: 0 <= i < |piece| ==> InClass(c, piece[i])
    requires Match(p[1..], tail)
    ensures Match(p, piece + tail)
    decreases |piece|
  {
    var s := piece + tail;
    assert s[0] == piece[0];
    if |piece| == 1 {
      assert s[1..] == tail;
    } else {
      PlusComplete(p, c, piece[1..], tail);
      assert s[1..] == piece[1..] + tail;
    }
  }

  /** Every split is recognised by the matcher. */
  lemma {:induction false} MatchComplete(p: seq<Elem>, parts: seq<string>)
    requires |parts| == |p|
    requires forall i :: 0 <= i < |p| ==> PieceMatches(p[i], parts[i])
    ensures Match(p, Concat(parts))
  {
    if p != [] {
      MatchComplete(p[1..], parts[1..]);
      var s := Concat(parts);
      assert s == parts[0] + Concat(parts[1..]);
      match p[0]
      case Lit(_) =>
        assert s[1..] == Concat(parts[1..]);
      case Any =>
        assert s[1..] == Concat(parts[1..]);
      case OptAny =>
        if |parts[0]| == 1 {
          assert s[1..] == Concat(parts[1..]);
        } else {
          assert parts[0] == [];
          assert s == Concat(parts[1..]);
        }
      case Plus(c) =>
        PlusComplete(p, c, parts[0], Concat(parts[1..]));
    }
  }

  /** The matcher accepts exactly the strings the pattern denotes. */
  lemma MatchIffDenotes(p: seq<Elem>, s: string)
    ensures Match(p, s) <==> Denotes(p, s)
  {
    if Match(p, s) {
      assert IsSplit(p, s, Pieces(p, s));
    }
    if Denotes(p, s) {
      var parts :| IsSplit(p, s, parts);
      MatchComplete(p, parts);
    }
  }

  /** The header test accepts exactly a header the pattern denotes, or one such header
      followed by a single final newline. */
  lemma HeaderMatchesIffDenotes(h: string)
    ensures HeaderMatches(h) <==>
              Denotes(HeaderElems(), h)
              || (|h| > 0 && h[|h| - 1] == '\n' && Denotes(HeaderElems(), h[..|h| - 1]))
  {
    MatchIffDenotes(HeaderElems(), h);
    if |h| > 0 {
      MatchIffDenotes(HeaderElems(), h[..|h| - 1]);
    }
  }

  // ---------------------------------------------------------------------------------
  // Consequences for accepted headers.

  /** The fewest characters a pattern can match. */
  function MinLength(p: seq<Elem>): nat {
    if p == [] then 0 else (if p[0] == OptAny then 0 else 1) + MinLength(p[1..])
  }

  lemma {:induction false} MatchLength(p: seq<Elem>, s: string)
    requires Match(p, s)
    ensures |s| >= MinLength(p)
    decreases |s|, |p|
  {
    if p != [] {
      match p[0]
      case Lit(_) => MatchLength(p[1..], s[1..]);
      case Any => MatchLength(p[1..], s[1..]);
      case OptAny =>
        if Match(p[1..], s) { MatchLength(p[1..], s); } else { MatchLength(p[1..], s[1..]); }
      case Plus(c) =>
        if Match(p[1..], s[1..]) { MatchLength(p[1..], s[1..]); } else { MatchLength(p, s[1..]); }
    }
  }

  /** A match of a literal followed by a pattern is that literal followed by a match. */
  lemma {:induction false} LiteralPrefix(w: string, q: seq<Elem>, s: string)
    requires Match(Literal(w) + q, s)
    ensures |s| >= |w| && s[..|w|] == w && Match(q, s[|w|..])
    decreases |w|
  {
    if w != [] {
      var p := Literal(w) + q;
      assert p[0] == Lit(w[0]);
      assert p[1..] == Literal(w[1..]) + q;
      LiteralPrefix(w[1..], q, s[1..]);
      assert s[1..][|w| - 1..] == s[|w|..];
      assert s[..|w|] == [s[0]] + s[1..][..|w| - 1];
    } else {
      assert Literal(w) + q == q;
    }
  }

  /** The converse: a literal followed by a match of the rest. */
  lemma {:induction false} LiteralComplete(w: string, q: seq<Elem>, t: string)
    requires Match(q, t)
    ensures Match(Literal(w) + q, w + t)
    decreases |w|
  {
    var p := Literal(w) + q;
    if w != [] {
      var s := w + t;
      assert p[0] == Lit(w[0]) && s[0] == w[0];
      assert p[1..] == Literal(w[1..]) + q;
      assert s[1..] == w[1..] + t;
      LiteralComplete(w[1..], q, t);
      assert Match(p[1..], s[1..]);
    } else {
      assert p == q && w + t == t;
    }
  }

  /** An accepted token starts with a letter or digit and has at least eight characters. */
  lemma TokenShape(t: string)
    requires Match(TokenPattern, t)
    ensures |t| >= 8 && IsAlnum(t[0])
  {
    MatchLength(TokenPattern, t);
  }

  /** Every accepted header is "Bearer", one space, and a token of at least eight characters
      that starts with a letter or digit. */
  lemma AcceptedHeaderShape(h: string)
    requires HeaderMatches(h)
    ensures |h| >= |Settings.AuthHeaderType| + 1 + 8
    ensures h[..|Settings.AuthHeaderType| + 1] == Settings.AuthHeaderType + " "
    ensures IsAlnum(h[|Settings.AuthHeaderType| + 1])
  {
    var w := Settings.AuthHeaderType + " ";
    var body := if Match(HeaderElems(), h) then h else h[..|h| - 1];
    LiteralPrefix(w, TokenPattern, body);
    TokenShape(body[|w|..]);
    assert h[..|w|] == body[..|w|];
  }

  /** The token "abcdefgh" is accepted: each `.` takes a letter and `.?` takes none. */
  lemma TokenWithoutDots()
    ensures Match(TokenPattern, "abcdefgh")
  {
    var t := "abcdefgh";
    var p := TokenPattern;
    assert Match(p[9..], t[8..]);
    assert Match(p[8..], t[7..]);
    assert Match(p[7..], t[7..]);
    assert Match(p[6..], t[6..]);
    assert Match(p[5..], t[5..]);
    assert Match(p[4..], t[4..]);
    assert Match(p[3..], t[3..]);
    assert Match(p[2..], t[2..]);
    assert Match(p[1..], t[1..]);
    assert Match(p, t[0..]);
    assert t[0..] == t;
  }

  /** The unescaped `.` accepts tokens with no dot at all... */
  lemma AcceptsTokenWithoutDots()
    ensures HeaderMatches(Settings.AuthHeaderType + " " + "abcdefgh")
  {
    TokenWithoutDots();
    LiteralComplete(Settings.AuthHeaderType + " ", TokenPattern, "abcdefgh");
  }

  /** The token "aaa.bbb.ccc" is accepted: the dots are taken by `.` and `.?`, the last
      run by the final class. */
  lemma CompactToken()
    ensures Match(TokenPattern, "aaa.bbb.ccc")
  {
    var t := "aaa.bbb.ccc";
    var p := TokenPattern;
    assert Match(p[9..], t[11..]);
    assert Match(p[8..], t[10..]);
    assert Match(p[8..], t[9..]);
    assert Match(p[8..], t[8..]);
    assert Match(p[7..], t[7..]);
    assert Match(p[6..], t[6..]);
    assert Match(p[5..], t[5..]);
    assert Match(p[4..], t[4..]);
    assert Match(p[3..], t[3..]);
    assert Match(p[2..], t[2..]);
    assert Match(p[1..], t[1..]);
    assert Match(p, t[0..]);
    assert t[0..] == t;
  }

  /** ... and a three-segment compact token, the form a signed JWT takes. */
  lemma AcceptsCompactToken()
    ensures HeaderMatches(Settings.AuthHeaderType + " " + "aaa.bbb.ccc")
  {
    CompactToken();
    LiteralComplete(Settings.AuthHeaderType + " ", TokenPattern, "aaa.bbb.ccc");
  }

  /** `$` also matches before a final newline, so a header ending in one is accepted. */
  lemma AcceptsTrailingNewline()
    ensures HeaderMatches(Settings.AuthHeaderType + " " + "abcdefgh" + "\n")
  {
    AcceptsTokenWithoutDots();
    var h := Settings.AuthHeaderType + " " + "abcdefgh" + "\n";
    assert h[..|h| - 1] == Settings.AuthHeaderType + " " + "abcdefgh";
  }

  /** A token shorter than eight characters is refused. */
  lemma RejectsShortToken()
    ensures !HeaderMatches("Bearer abc.def")
  {
    if HeaderMatches("Bearer abc.def") {
      AcceptedHeaderShape("Bearer abc.def");
    }
  }
}
