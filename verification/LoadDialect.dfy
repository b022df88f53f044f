/**
 The reader that drpdb/src/MySQLOutput.cpp:121 asks for: fields terminated by a separator, optionally enclosed
 by `"`, lines terminated by a newline, and the default escape character `\`. Inside an enclosure separators and
 newlines are data, a doubled quote is one quote, and a quote closes the field only in front of a terminator.
 The separator is a parameter, because the CSV engine can take it from the locale.
 */
module LoadDialect {
  import opened StringUtils

  /** A field of the file; NULL is written `\N` or as the bare word. */
  datatype Field = Null | Datum(text: string)

  /** What a character stands for behind a backslash, in data files and in SQL string literals alike. */
  function Meaning(c: char): char {
    match c
    case '0' => '\0'
    case 'b' => '\U{8}'
    case 'n' => '\n'
    case 'r' => '\r'
    case 't' => '\t'
    case 'Z' => '\U{1a}'
    case _ => c
  }

  /** A field ends here. */
  predicate AtTerminator(s: string, separator: char) {
    s == "" || s[0] == separator || s[0] == '\n'
  }

  /** An enclosed field, read from behind its opening quote; None when the file ends inside it. */
  function ReadEnclosed(s: string, separator: char): (r: Option<(string, string)>)
    ensures r.Some? ==> |r.value.1| < |s|
    ensures r.Some? ==> AtTerminator(r.value.1, separator)
  {
    if s == "" then None
    else if s[0] == '\\' then
      if |s| == 1 then None else Prefixed(Meaning(s[1]), ReadEnclosed(s[2..], separator))
    else if s[0] == '"' then
      if |s| > 1 && s[1] == '"' then Prefixed('"', ReadEnclosed(s[2..], separator))
      else if AtTerminator(s[1..], separator) then Some(("", s[1..]))
      else Prefixed('"', ReadEnclosed(s[1..], separator))
    else Prefixed(s[0], ReadEnclosed(s[1..], separator))
  }

  function Prefixed(c: char, r: Option<(string, string)>): Option<(string, string)> {
    match r
    case None => None
    case Some((text, rest)) => Some(([c] + text, rest))
  }

  /** A field without enclosure, up to its terminator. */
  function ReadPlain(s: string, separator: char): (r: (string, string))
    ensures |r.1| <= |s| && (s != "" && r.1 == s ==> r.0 == "")
    ensures AtTerminator(r.1, separator)
  {
    if AtTerminator(s, separator) then ("", s)
    else if s[0] == '\\' && |s| > 1 then
      var (text, rest) := ReadPlain(s[2..], separator);
      ([Meaning(s[1])] + text, rest)
    else
      var (text, rest) := ReadPlain(s[1..], separator);
      ([s[0]] + text, rest)
  }

  function ReadField(s: string, separator: char): (r: Option<(Field, string)>)
    ensures r.Some? ==> |r.value.1| <= |s| && AtTerminator(r.value.1, separator)
  {
    if s != "" && s[0] == '"' then
      match ReadEnclosed(s[1..], separator)
      case None => None
      case Some((text, rest)) => Some((Datum(text), rest))
    else
      var (text, rest) := ReadPlain(s, separator);
      var raw := s[..|s| - |rest|];
      Some((if raw == "\\N" || raw == "NULL" then Null else Datum(text), rest))
  }

  /** The fields of one line, and the text behind its newline. */
  function ReadLine(s: string, separator: char): (r: Option<(seq<Field>, string)>)
    ensures r.Some? ==> if s == "" then r.value.1 == "" else |r.value.1| < |s|
    decreases |s|
  {
    match ReadField(s, separator)
    case None => None
    case Some((field, rest)) =>
      if rest == "" then Some(([field], ""))
      else if rest[0] == separator then
        match ReadLine(rest[1..], separator)
        case None => None
        case Some((fields, tail)) => Some(([field] + fields, tail))
      else Some(([field], rest[1..]))
  }

  function ReadFile(s: string, separator: char): Option<seq<seq<Field>>>
    decreases |s|
  {
    if s == "" then Some([])
    else
      match ReadLine(s, separator)
      case None => None
      case Some((fields, tail)) =>
        match ReadFile(tail, separator)
        case None => None
        case Some(lines) => Some([fields] + lines)
  }
}
