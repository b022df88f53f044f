/**
 Words, signs and string literals of the SQL text that drpdb generates, and the lexer that reads them.
 A string literal ends at a quote that is neither doubled nor behind a backslash.
 */
module SqlText {
  import opened StringUtils
  import opened Reflection
  import opened SqlLiterals

  datatype Token = Word(word: string) | Sign(c: char) | Quoted(text: string) | Bad

  predicate IsBlank(c: char) {
    c == ' ' || c == '\n' || c == '\t' || c == '\r'
  }

  function WordLength(s: string): (n: nat)
    ensures n <= |s|
    ensures s != "" && IsWordChar(s[0]) ==> n > 0
  {
    if s == "" || !IsWordChar(s[0]) then 0 else 1 + WordLength(s[1..])
  }

  function Lex(s: string): seq<Token>
    decreases |s|
  {
    if s == "" then []
    else if IsBlank(s[0]) then Lex(s[1..])
    else if IsWordChar(s[0]) then
      var n := WordLength(s);
      [Word(s[..n])] + Lex(s[n..])
    else if s[0] == '\'' then
      match ReadString(s[1..])
      case None => [Bad]
      case Some((text, rest)) => [Quoted(text)] + Lex(rest)
    else [Sign(s[0])] + Lex(s[1..])
  }

  // ---------------------------------------------------------------- pieces

  /** What a generator appends: a blank, a word, a sign, or a literal given by its raw text. */
  datatype Piece = Gap | W(word: string) | S(c: char) | Q(raw: string)

  function Show(p: Piece): string {
    match p
    case Gap => " "
    case W(word) => word
    case S(c) => [c]
    case Q(raw) => "'" + raw + "'"
  }

  function Render(ps: seq<Piece>): string {
    if ps == [] then "" else Show(ps[0]) + Render(ps[1..])
  }

  predicate Legible(p: Piece) {
    match p
    case Gap => true
    case W(word) => IsName(word)
    case S(c) => !IsBlank(c) && !IsWordChar(c) && c != '\''
    case Q(raw) => Decoded(raw).Some?
  }

  predicate Soft(p: Piece) {
    p.Gap? || p.S?
  }

  /** Two words, or two literals, do not touch. */
  predicate WellSpaced(ps: seq<Piece>) {
    ps == [] ||
    (Legible(ps[0]) && WellSpaced(ps[1..]) &&
     (|ps| > 1 ==> Soft(ps[0]) || Soft(ps[1]) || ps[0].W? != ps[1].W?))
  }

  function Meant(p: Piece): seq<Token>
    requires Legible(p)
  {
    match p
    case Gap => []
    case W(word) => [Word(word)]
    case S(c) => [Sign(c)]
    case Q(raw) => [Quoted(Decoded(raw).value)]
  }

  function Tokens(ps: seq<Piece>): seq<Token>
    requires WellSpaced(ps)
  {
    if ps == [] then [] else Meant(ps[0]) + Tokens(ps[1..])
  }

  lemma {:induction false} WholeWord(word: string, rest: string)
    requires forall c :: c in word ==> IsWordChar(c)
    requires rest == "" || !IsWordChar(rest[0])
    ensures WordLength(word + rest) == |word|
  {
    if word == "" {
      assert word + rest == rest;
    } else {
      assert word[0] in word && forall c :: c in word[1..] ==> c in word;
      assert (word + rest)[1..] == word[1..] + rest;
      WholeWord(word[1..], rest);
    }
  }

  lemma {:induction false} RenderStart(ps: seq<Piece>)
    requires WellSpaced(ps) && ps != []
    ensures Render(ps) != ""
    ensures IsWordChar(Render(ps)[0]) <==> ps[0].W?
    ensures Render(ps)[0] == '\'' <==> ps[0].Q?
  {
    if ps[0].W? {
      assert ps[0].word[0] in ps[0].word;
    }
  }

  lemma {:induction false} LexWord(word: string, rest: string)
    requires IsName(word) && (rest == "" || !IsWordChar(rest[0]))
    ensures Lex(word + rest) == [Word(word)] + Lex(rest)
  {
    assert word[0] in word;
    WholeWord(word, rest);
    assert (word + rest)[..|word|] == word && (word + rest)[|word|..] == rest;
  }

  lemma {:induction false} LexLiteral(raw: string, rest: string)
    requires Decoded(raw).Some? && (rest == "" || rest[0] != '\'')
    ensures Lex("'" + raw + "'" + rest) == [Quoted(Decoded(raw).value)] + Lex(rest)
  {
    var all := "'" + raw + "'" + rest;
    assert all[1..] == raw + "'" + rest;
    ReadStringExtends(raw + "'", rest);
    assert "" + rest == rest;
  }

  lemma {:induction false} LexPiece(p: Piece, rest: string)
    requires Legible(p)
    requires p.W? ==> rest == "" || !IsWordChar(rest[0])
    requires p.Q? ==> rest == "" || rest[0] != '\''
    ensures Lex(Show(p) + rest) == Meant(p) + Lex(rest)
  {
    var all := Show(p) + rest;
    match p
    case Gap => assert all[1..] == rest;
    case S(c) => assert all[1..] == rest;
    case W(word) =>
      LexWord(word, rest);
    case Q(raw) =>
      LexLiteral(raw, rest);
  }

  /** The lexer finds exactly the pieces a generator put down. */
  lemma {:induction false} LexRender(ps: seq<Piece>)
    requires WellSpaced(ps)
    ensures Lex(Render(ps)) == Tokens(ps)
  {
    if ps != [] {
      LexRender(ps[1..]);
      if |ps| > 1 {
        RenderStart(ps[1..]);
      }
      LexPiece(ps[0], Render(ps[1..]));
    }
  }

  lemma {:induction false} RenderAppend(a: seq<Piece>, b: seq<Piece>)
    ensures Render(a + b) == Render(a) + Render(b)
  {
    if a == [] {
      assert a + b == b;
    } else {
      assert (a + b)[1..] == a[1..] + b;
      RenderAppend(a[1..], b);
    }
  }

  /** Two stretches of pieces may follow each other. */
  predicate Meet(a: seq<Piece>, b: seq<Piece>) {
    a != [] && b != [] ==> Soft(a[|a| - 1]) || Soft(b[0])
  }

  lemma {:induction false} WellSpacedAppend(a: seq<Piece>, b: seq<Piece>)
    requires WellSpaced(a) && WellSpaced(b) && Meet(a, b)
    ensures WellSpaced(a + b)
  {
    if a == [] {
      assert a + b == b;
    } else {
      assert (a + b)[1..] == a[1..] + b;
      WellSpacedAppend(a[1..], b);
    }
  }

  lemma {:induction false} TokensAppend(a: seq<Piece>, b: seq<Piece>)
    requires WellSpaced(a) && WellSpaced(b) && Meet(a, b)
    ensures WellSpaced(a + b) && Tokens(a + b) == Tokens(a) + Tokens(b)
  {
    WellSpacedAppend(a, b);
    if a == [] {
      assert a + b == b;
    } else {
      assert Tokens(a + b) == Meant(a[0]) + (Tokens(a[1..]) + Tokens(b)) by {
        assert (a + b)[1..] == a[1..] + b;
        TokensAppend(a[1..], b);
      }
      Reassociate(Meant(a[0]), Tokens(a[1..]), Tokens(b));
    }
  }
}
