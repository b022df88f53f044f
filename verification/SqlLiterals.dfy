/**
 SQL string literals: how the server reads them, and which texts survive the two quoting habits of drpdb
 (doubled `'` in descriptions, doubled `\` in the path of the data file).
 */
module SqlLiterals {
  import opened StringUtils
  import opened LoadDialect

  /** What an escape sequence in a string literal stands for; `\%` and `\_` keep their backslash. */
  function EscapeMeaning(c: char): string {
    if c == '%' || c == '_' then ['\\', c] else [Meaning(c)]
  }

  /** A string literal, read from behind its opening quote. */
  function ReadString(s: string): (r: Option<(string, string)>)
    ensures r.Some? ==> |r.value.1| < |s|
  {
    if s == "" then None
    else if s[0] == '\\' then
      if |s| == 1 then None
      else
        var (text, rest) :- ReadString(s[2..]);
        Some((EscapeMeaning(s[1]) + text, rest))
    else if s[0] == '\'' then
      if |s| > 1 && s[1] == '\'' then
        var (text, rest) :- ReadString(s[2..]);
        Some(("'" + text, rest))
      else Some(("", s[1..]))
    else
      var (text, rest) :- ReadString(s[1..]);
      Some(([s[0]] + text, rest))
  }

  /** The text a raw literal stands for; None when the literal would not end at its closing quote. */
  function Decoded(raw: string): Option<string> {
    match ReadString(raw + "'")
    case None => None
    case Some((text, rest)) => if rest == "" then Some(text) else None
  }

  /** Text behind the closing quote does not matter, unless it starts with another quote. */
  lemma {:induction false} ReadStringExtends(s: string, rest: string)
    requires ReadString(s).Some?
    requires ReadString(s).value.1 == "" ==> rest == "" || rest[0] != '\''
    ensures ReadString(s + rest) == Some((ReadString(s).value.0, ReadString(s).value.1 + rest))
  {
    if s[0] == '\\' || (s[0] == '\'' && |s| > 1 && s[1] == '\'') {
      assert (s + rest)[2..] == s[2..] + rest;
      ReadStringExtends(s[2..], rest);
    } else {
      assert (s + rest)[1..] == s[1..] + rest;
      if s[0] != '\'' {
        ReadStringExtends(s[1..], rest);
      }
    }
  }

  // ---------------------------------------------------------- descriptions

  /** `replace(desc, "'", "''")` */
  function Doubled(desc: string): string {
    ReplaceAll(desc, "'", "''")
  }

  function DoubledQuotes(desc: string): string {
    Expanded(desc, '\'', "''")
  }

  /** Every backslash stands in front of `%` or `_`, where SQL keeps it. */
  predicate BackslashSafe(desc: string) {
    if desc == "" then true
    else if desc[0] == '\\' then |desc| > 1 && (desc[1] == '%' || desc[1] == '_') && BackslashSafe(desc[2..])
    else BackslashSafe(desc[1..])
  }

  /** No backslash takes a quote, or the end of the description: then the literal ends at the quote behind it. */
  predicate KeepsItsQuotes(desc: string) {
    if desc == "" then true
    else if desc[0] == '\\' then |desc| > 1 && desc[1] != '\'' && KeepsItsQuotes(desc[2..])
    else KeepsItsQuotes(desc[1..])
  }

  /** What a description becomes: a backslash and the character behind it are read as an escape sequence. */
  function CommentOf(desc: string): string {
    if desc == "" then ""
    else if desc[0] == '\\' && |desc| > 1 then EscapeMeaning(desc[1]) + CommentOf(desc[2..])
    else [desc[0]] + CommentOf(desc[1..])
  }

  /** The literal of a description, with the text that follows it. */
  function Literal(desc: string, rest: string): string {
    DoubledQuotes(desc) + "'" + rest
  }

  /** What reading the literal meets first: an escape sequence, a doubled quote, or a plain character. */
  lemma {:induction false} LiteralUnfold(desc: string, rest: string)
    requires desc != ""
    ensures desc[0] == '\'' ==> Literal(desc, rest) == "''" + Literal(desc[1..], rest)
    ensures desc[0] != '\'' ==> Literal(desc, rest) == [desc[0]] + Literal(desc[1..], rest)
  {
  }

  /** When a backslash swallows the first quote of a pair, the literal no longer ends where it should. */
  lemma {:induction false} OddQuotes(desc: string, rest: string)
    ensures var r := ReadString("'" + Literal(desc, rest)); r.Some? ==> |r.value.1| != |rest|
  {
    var all := "'" + Literal(desc, rest);
    if desc == "" {
      assert all == "''" + rest && all[2..] == rest;
    } else {
      LiteralUnfold(desc, rest);
      if desc[0] == '\'' {
        assert all[2..] == "'" + Literal(desc[1..], rest);
        OddQuotes(desc[1..], rest);
      } else {
        assert all[1..] == Literal(desc, rest);
      }
    }
  }

  /** Behind a leading backslash, reading either leaves the literal or goes on with the next two characters done. */
  lemma {:induction false} ReadBackslash(desc: string, rest: string)
    requires desc != "" && desc[0] == '\\'
    ensures var r := ReadString(Literal(desc, rest));
      r.Some? && |r.value.1| == |rest| ==>
        |desc| > 1 &&
        var tail := ReadString(Literal(desc[2..], rest));
        tail.Some? && r.value.1 == tail.value.1 &&
        desc[1] != '\'' &&
        r.value.0 == EscapeMeaning(desc[1]) + tail.value.0
  {
    var all := Literal(desc, rest);
    LiteralUnfold(desc, rest);
    if |desc| == 1 {
      assert desc[1..] == "";
      assert all == "\\'" + rest && all[2..] == rest;
    } else {
      LiteralUnfold(desc[1..], rest);
      assert desc[1..][1..] == desc[2..];
      if desc[1] == '\'' {
        assert all[2..] == "'" + Literal(desc[2..], rest);
        OddQuotes(desc[2..], rest);
      } else {
        assert all[2..] == Literal(desc[2..], rest);
      }
    }
  }

  lemma {:induction false} ReadComment(desc: string, rest: string)
    requires KeepsItsQuotes(desc) && (rest == "" || rest[0] != '\'')
    ensures ReadString(Literal(desc, rest)) == Some((CommentOf(desc), rest))
  {
    var all := Literal(desc, rest);
    if desc == "" {
      assert all == "'" + rest && all[1..] == rest;
    } else {
      LiteralUnfold(desc, rest);
      if desc[0] == '\\' {
        LiteralUnfold(desc[1..], rest);
        assert desc[1..][1..] == desc[2..];
        assert all[2..] == Literal(desc[2..], rest);
        ReadComment(desc[2..], rest);
      } else {
        assert all[if desc[0] == '\'' then 2 else 1..] == Literal(desc[1..], rest);
        ReadComment(desc[1..], rest);
      }
    }
  }

  lemma {:induction false} LostQuotes(desc: string, rest: string)
    requires !KeepsItsQuotes(desc)
    ensures var r := ReadString(Literal(desc, rest)); r.Some? ==> |r.value.1| != |rest|
  {
    var all := Literal(desc, rest);
    LiteralUnfold(desc, rest);
    if desc[0] == '\\' {
      ReadBackslash(desc, rest);
      if |desc| > 1 && desc[1] != '\'' {
        LostQuotes(desc[2..], rest);
      }
    } else {
      assert all[if desc[0] == '\'' then 2 else 1..] == Literal(desc[1..], rest);
      LostQuotes(desc[1..], rest);
    }
  }

  /** The literal of a description is read to its end exactly when no backslash takes a quote or the end. */
  lemma {:induction false} DescriptionIsRead(desc: string)
    ensures Decoded(Doubled(desc)) == if KeepsItsQuotes(desc) then Some(CommentOf(desc)) else None
  {
    ReplaceOneChar(desc, '\'', "''");
    assert Literal(desc, "") == Doubled(desc) + "'";
    if KeepsItsQuotes(desc) {
      ReadComment(desc, "");
    } else {
      LostQuotes(desc, "");
    }
  }

  lemma {:induction false} OnlySafeOnesSurvive(desc: string)
    requires KeepsItsQuotes(desc)
    ensures |CommentOf(desc)| <= |desc|
    ensures CommentOf(desc) == desc <==> BackslashSafe(desc)
  {
    if desc != "" {
      if desc[0] == '\\' {
        OnlySafeOnesSurvive(desc[2..]);
        assert desc == [desc[0], desc[1]] + desc[2..];
      } else {
        OnlySafeOnesSurvive(desc[1..]);
        assert desc == [desc[0]] + desc[1..];
      }
    }
  }

  lemma {:induction false} SafeKeepsItsQuotes(desc: string)
    requires BackslashSafe(desc)
    ensures KeepsItsQuotes(desc)
  {
    if desc != "" {
      SafeKeepsItsQuotes(desc[if desc[0] == '\\' then 2 else 1..]);
    }
  }

  /**
   A description quoted by doubling `'` (ISO/IEC 9075-2, section 5.3) is read back as itself exactly when each
   of its backslashes stands in front of `%` or `_`: drpdb does not double backslashes here.
   */
  lemma {:induction false} DescriptionSurvives(desc: string)
    ensures Decoded(Doubled(desc)) == Some(desc) <==> BackslashSafe(desc)
  {
    DescriptionIsRead(desc);
    if KeepsItsQuotes(desc) {
      OnlySafeOnesSurvive(desc);
    }
    if BackslashSafe(desc) {
      SafeKeepsItsQuotes(desc);
    }
  }

  // ----------------------------------------------------------------- paths

  function DoubledBackslashes(path: string): string {
    Expanded(path, '\\', "\\\\")
  }

  lemma {:induction false} PathUnfold(path: string, rest: string)
    requires path != ""
    ensures DoubledBackslashes(path) + rest
         == (if path[0] == '\\' then "\\\\" else [path[0]]) + (DoubledBackslashes(path[1..]) + rest)
  {
  }

  lemma {:induction false} ReadPlainString(c: char, tail: string)
    requires c != '\\' && c != '\'' && ReadString(tail).Some?
    ensures ReadString([c] + tail) == Some(([c] + ReadString(tail).value.0, ReadString(tail).value.1))
  {
    assert ([c] + tail)[1..] == tail;
  }

  lemma {:induction false} ReadEscapePair(c: char, tail: string)
    requires ReadString(tail).Some?
    ensures ReadString(['\\', c] + tail)
         == Some((EscapeMeaning(c) + ReadString(tail).value.0, ReadString(tail).value.1))
  {
    var all := ['\\', c] + tail;
    assert |all| > 1 && all[0] == '\\' && all[1] == c && all[2..] == tail;
  }

  /** Text without backslashes and quotes is read as it stands. */
  lemma {:induction false} ReadPlainText(s: string, rest: string)
    requires '\\' !in s && '\'' !in s && ReadString(rest).Some?
    ensures ReadString(s + rest) == Some((s + ReadString(rest).value.0, ReadString(rest).value.1))
  {
    if s == "" {
      assert s + rest == rest && s + ReadString(rest).value.0 == ReadString(rest).value.0;
    } else {
      assert s[0] in s && forall c :: c in s[1..] ==> c in s;
      ReadPlainText(s[1..], rest);
      ReadPlainString(s[0], s[1..] + rest);
      assert s == [s[0]] + s[1..];
      Reassociate([s[0]], s[1..], rest);
      Reassociate([s[0]], s[1..], ReadString(rest).value.0);
    }
  }

  lemma {:induction false} BackslashMeansItself(c: char)
    requires c == '\\'
    ensures EscapeMeaning(c) == [c]
  {
  }

  lemma {:induction false} ReadPath(path: string, rest: string)
    requires '\'' !in path && ReadString(rest).Some?
    ensures ReadString(DoubledBackslashes(path) + rest)
         == Some((path + ReadString(rest).value.0, ReadString(rest).value.1))
  {
    if path == "" {
      assert DoubledBackslashes(path) + rest == rest && path + ReadString(rest).value.0 == ReadString(rest).value.0;
    } else {
      var c, tail := path[0], DoubledBackslashes(path[1..]) + rest;
      assert c in path && forall c :: c in path[1..] ==> c in path;
      ReadPath(path[1..], rest);
      PathUnfold(path, rest);
      if c == '\\' {
        assert "\\\\" == ['\\', c];
        ReadEscapePair(c, tail);
        BackslashMeansItself(c);
      } else {
        ReadPlainString(c, tail);
      }
      assert path == [c] + path[1..];
      Reassociate([c], path[1..], ReadString(rest).value.0);
    }
  }

  /** A quote in the path either ends the literal early or, when doubled, costs a character. */
  lemma {:induction false} QuotesCost(path: string, rest: string, body: string)
    requires ReadString(rest) == Some((body, "")) && rest[0] != '\''
    ensures var r := ReadString(DoubledBackslashes(path) + rest);
      r.Some? && r.value.1 == "" ==>
        |r.value.0| <= |path| + |body| && ('\'' in path ==> |r.value.0| < |path| + |body|)
  {
    var all := DoubledBackslashes(path) + rest;
    if path == "" {
      assert all == rest;
    } else {
      PathUnfold(path, rest);
      assert path == [path[0]] + path[1..];
      if path[0] != '\'' {
        assert all[if path[0] == '\\' then 2 else 1..] == DoubledBackslashes(path[1..]) + rest;
        QuotesCost(path[1..], rest, body);
      } else {
        assert all[1..] == DoubledBackslashes(path[1..]) + rest;
        if |path| > 1 && path[1] == '\'' {
          PathUnfold(path[1..], rest);
          assert path[1..][1..] == path[2..];
          assert all[2..] == DoubledBackslashes(path[2..]) + rest;
          QuotesCost(path[2..], rest, body);
        } else if |path| > 1 {
          PathUnfold(path[1..], rest);
        } else {
          assert path[1..] == "";
        }
      }
    }
  }

  /** `replace(dir, "\\", "\\\\")`, continued by raw text, is read back exactly when `dir` holds no quote. */
  lemma {:induction false} PathSurvives(dir: string, raw: string, more: string)
    requires Decoded(raw) == Some(more) && raw != "" && raw[0] != '\''
    ensures Decoded(ReplaceAll(dir, "\\", "\\\\") + raw) == Some(dir + more) <==> '\'' !in dir
  {
    ReplaceOneChar(dir, '\\', "\\\\");
    assert DoubledBackslashes(dir) + (raw + "'") == ReplaceAll(dir, "\\", "\\\\") + raw + "'";
    if '\'' !in dir {
      ReadPath(dir, raw + "'");
    } else {
      QuotesCost(dir, raw + "'", more);
    }
  }
}
