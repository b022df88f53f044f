/** The two string loops of drpdb/src/stringutils.h, and what each of them computes. */
module StringUtils {

  datatype Option<+T> = None | Some(value: T) {
    predicate IsFailure() {
      None?
    }

    function PropagateFailure<U>(): Option<U>
      requires None?
    {
      None
    }

    function Extract(): T
      requires Some?
    {
      value
    }
  }

  /** A string that a callee edits through a reference. */
  class Text {
    var str: string

    constructor (str: string)
      ensures this.str == str
    {
      this.str := str;
    }

    /** `std::string::insert(i, 1, c)` */
    method Insert(i: nat, c: char)
      requires i <= |str|
      modifies this
      ensures str == old(str)[..i] + [c] + old(str)[i..]
    {
      str := str[..i] + [c] + str[i..];
    }
  }

  // ---------------------------------------------------------------- escape

  /** What one character becomes. */
  function EscapedChar(c: char, separator: char): string {
    if c == '"' || c == '\\' || c == separator then ['\\', c] else [c]
  }

  /** The simple form of `escape`: each character is expanded on its own. */
  function Escaped(s: string, separator: char): string {
    if s == "" then "" else EscapedChar(s[0], separator) + Escaped(s[1..], separator)
  }

  lemma {:induction false} EscapedSnoc(s: string, c: char, separator: char)
    ensures Escaped(s + [c], separator) == Escaped(s, separator) + EscapedChar(c, separator)
  {
    if s == "" {
      assert s + [c] == [c];
      assert Escaped([c], separator) == EscapedChar(c, separator) + Escaped([c][1..], separator);
    } else {
      assert (s + [c])[1..] == s[1..] + [c];
      EscapedSnoc(s[1..], c, separator);
    }
  }

  /** One turn of the loop, on the part already escaped and the part still to come. */
  lemma {:induction false} EscapeStep(done: string, rest: string)
    requires rest != ""
    ensures (done + rest)[|done|] == rest[0]
    ensures done + rest == (done + [rest[0]]) + rest[1..]
    ensures (done + rest)[..|done|] + ['\\'] + (done + rest)[|done|..] == (done + ['\\', rest[0]]) + rest[1..]
  {
  }

  /** The in-place loop: it inserts into the string it is scanning. */
  method Escape(text: Text, separator: char)
    modifies text
    ensures text.str == Escaped(old(text.str), separator)
  {
    ghost var original := text.str;
    ghost var read, done, rest := "", "", text.str;
    var i := 0;
    while i != |text.str|
      invariant original == read + rest && done == Escaped(read, separator)
      invariant text.str == done + rest && i == |done|
      decreases |rest|
    {
      EscapeStep(done, rest);
      EscapeStep(read, rest);
      EscapedSnoc(read, rest[0], separator);
      var v := text.str[i];
      if v == '"' {
        text.Insert(i, '\\');
        i := i + 1;
      } else if v == '\\' {
        text.Insert(i, '\\');
        i := i + 1;
      } else if v == separator {
        text.Insert(i, '\\');
        i := i + 1;
      }
      i := i + 1;
      read, done, rest := read + [rest[0]], done + EscapedChar(v, separator), rest[1..];
    }
    assert original == read;
  }

  /** Drops each escaping backslash; a dangling one has no meaning. */
  function Unescaped(s: string): Option<string> {
    if s == "" then Some("")
    else if s[0] == '\\' then
      if |s| == 1 then None
      else
        match Unescaped(s[2..])
        case None => None
        case Some(tail) => Some([s[1]] + tail)
    else
      match Unescaped(s[1..])
      case None => None
      case Some(tail) => Some([s[0]] + tail)
  }

  /** Position of the first character c that no backslash escapes, or the length when there is none. */
  function FirstBare(s: string, c: char): (n: nat)
    ensures n <= |s|
  {
    if s == "" then 0
    else if s[0] == c then 0
    else if s[0] == '\\' && |s| > 1 then 2 + FirstBare(s[2..], c)
    else 1 + FirstBare(s[1..], c)
  }

  predicate NoneBare(s: string, c: char) {
    FirstBare(s, c) == |s|
  }

  /** Unescaping gives the original back, for every string and every separator. */
  lemma {:induction false} UnescapeEscaped(s: string, separator: char)
    ensures Unescaped(Escaped(s, separator)) == Some(s)
  {
    if s != "" {
      var head, tail := EscapedChar(s[0], separator), Escaped(s[1..], separator);
      UnescapeEscaped(s[1..], separator);
      assert (head + tail)[|head|..] == tail;
      assert s == [s[0]] + s[1..];
    }
  }

  /** The closing quote the writer adds is the first unescaped one, whatever follows it. */
  lemma {:induction false} ClosingQuoteIsFirst(s: string, separator: char, rest: string)
    ensures FirstBare(Escaped(s, separator) + "\"" + rest, '"') == |Escaped(s, separator)|
  {
    var all := Escaped(s, separator) + "\"" + rest;
    if s == "" {
      assert all[0] == '"';
    } else {
      var head, tail := EscapedChar(s[0], separator), Escaped(s[1..], separator) + "\"" + rest;
      ClosingQuoteIsFirst(s[1..], separator, rest);
      assert all == head + tail;
      assert all[|head|..] == tail;
    }
  }

  /** The characters that a reader would take for something else. */
  predicate IsSpecial(c: char, separator: char) {
    c == '"' || c == '\\' || c == separator
  }

  /** Of all characters but the backslash, just the quote, the separator and those that do not occur are never bare. */
  lemma {:induction false} NeverBare(s: string, separator: char, c: char)
    requires c != '\\'
    ensures NoneBare(Escaped(s, separator), c) <==> c == '"' || c == separator || c !in s
  {
    if s != "" {
      var head, tail := EscapedChar(s[0], separator), Escaped(s[1..], separator);
      NeverBare(s[1..], separator, c);
      assert (head + tail)[|head|..] == tail;
      assert c in s <==> c == s[0] || c in s[1..];
    }
  }

  /** The positions that hold a special character. */
  function SpecialPositions(s: string, separator: char): set<nat> {
    set i: nat | i < |s| && IsSpecial(s[i], separator)
  }

  lemma {:induction false} SpecialSnoc(s: string, c: char, separator: char)
    ensures |SpecialPositions(s + [c], separator)|
         == |SpecialPositions(s, separator)| + if IsSpecial(c, separator) then 1 else 0
  {
    var before, after := SpecialPositions(s, separator), SpecialPositions(s + [c], separator);
    assert after == if IsSpecial(c, separator) then before + {|s|} else before;
  }

  /** One backslash is added for each special character, and nothing else. */
  lemma {:induction false} EscapedLength(s: string, separator: char)
    ensures |Escaped(s, separator)| == |s| + |SpecialPositions(s, separator)|
    decreases |s|
  {
    if s != "" {
      var front, c := s[..|s| - 1], s[|s| - 1];
      assert s == front + [c];
      EscapedLength(front, separator);
      EscapedSnoc(front, c, separator);
      SpecialSnoc(front, c, separator);
    }
  }

  /** The length of what an unescaper takes in one step. */
  function StepLength(text: string): nat
    requires text != ""
  {
    if text[0] == '\\' then 2 else 1
  }

  lemma {:induction false} NoneBareBehind(text: string, c: char)
    requires text != "" && StepLength(text) <= |text| && c != '\\' && NoneBare(text, c)
    ensures NoneBare(text[StepLength(text)..], c) && (StepLength(text) == 1 ==> text[0] != c)
  {
  }

  lemma {:induction false} UnescapedBehind(text: string, s: string)
    requires text != "" && Unescaped(text) == Some(s)
    ensures var n := StepLength(text);
      n <= |text| && s != "" && s[0] == text[n - 1] && Unescaped(text[n..]) == Some(s[1..])
  {
  }

  lemma {:induction false} OneStepIsShortest(head: string, c: char, separator: char)
    requires (head == [c] && !IsSpecial(c, separator)) || head == ['\\', c]
    ensures |EscapedChar(c, separator)| <= |head|
    ensures |EscapedChar(c, separator)| == |head| ==> EscapedChar(c, separator) == head
  {
  }

  /**
   Of all texts that unescape to s and hold no bare quote and no bare separator, the loop leaves the shortest one, and
   there is only one that short.
   */
  lemma {:induction false} EscapedIsShortest(text: string, s: string, separator: char)
    requires Unescaped(text) == Some(s) && NoneBare(text, '"')
    requires separator != '\\' ==> NoneBare(text, separator)
    ensures |Escaped(s, separator)| <= |text|
    ensures |text| == |Escaped(s, separator)| ==> text == Escaped(s, separator)
  {
    if text != "" {
      UnescapedBehind(text, s);
      var n := StepLength(text);
      NoneBareBehind(text, '"');
      if separator != '\\' {
        NoneBareBehind(text, separator);
      }
      EscapedIsShortest(text[n..], s[1..], separator);
      assert text == text[..n] + text[n..];
      OneStepIsShortest(text[..n], s[0], separator);
    }
  }

  // --------------------------------------------------------------- replace

  /** `std::string::npos` */
  const NPOS := -1

  predicate MatchesAt(s: string, pattern: string, at: nat) {
    at + |pattern| <= |s| && s[at..at + |pattern|] == pattern
  }

  /** `std::string::find(pattern, from)` */
  function Find(s: string, pattern: string, from: nat): (r: int)
    ensures r == NPOS || (from <= r && r + |pattern| <= |s|)
    decreases |s| - from
  {
    if from + |pattern| > |s| then NPOS
    else if MatchesAt(s, pattern, from) then from
    else Find(s, pattern, from + 1)
  }

  /** A hit is a match, the leftmost one; without a hit there is none. */
  lemma {:induction false} FindIsLeftmost(s: string, pattern: string, from: nat)
    ensures Find(s, pattern, from) != NPOS ==> MatchesAt(s, pattern, Find(s, pattern, from))
    ensures forall k: nat :: from <= k && MatchesAt(s, pattern, k) ==> NPOS < Find(s, pattern, from) <= k
    decreases |s| - from
  {
    if from + |pattern| <= |s| && !MatchesAt(s, pattern, from) {
      FindIsLeftmost(s, pattern, from + 1);
    }
  }

  lemma {:induction false} MatchShift(done: string, rest: string, pattern: string, k: nat)
    ensures MatchesAt(done + rest, pattern, |done| + k) == MatchesAt(rest, pattern, k)
  {
    if k + |pattern| <= |rest| {
      assert (done + rest)[|done| + k..|done| + k + |pattern|] == rest[k..k + |pattern|];
    }
  }

  /** Searching on from the end of a prefix is searching the remainder. */
  lemma {:induction false} FindShift(done: string, rest: string, pattern: string, k: nat)
    requires k <= |rest|
    ensures Find(done + rest, pattern, |done| + k)
         == if Find(rest, pattern, k) == NPOS then NPOS else |done| + Find(rest, pattern, k)
    decreases |rest| - k
  {
    MatchShift(done, rest, pattern, k);
    if k + |pattern| <= |rest| && !MatchesAt(rest, pattern, k) && k < |rest| {
      FindShift(done, rest, pattern, k + 1);
    }
  }

  /** Every leftmost match is replaced, and the search resumes behind it. */
  function ReplaceAll(subject: string, search: string, replacement: string): string
    requires search != ""
    decreases |subject|
  {
    var i := Find(subject, search, 0);
    if i == NPOS then subject
    else subject[..i] + replacement + ReplaceAll(subject[i + |search|..], search, replacement)
  }

  /** One edit of the string, on the part already done and the part still to search. */
  lemma {:induction false} EditAcross(done: string, rest: string, at: nat, n: nat, replacement: string)
    requires |done| <= at && at + n <= |done| + |rest|
    ensures (done + rest)[..at] + replacement + (done + rest)[at + n..]
         == (done + rest[..at - |done|] + replacement) + rest[at - |done| + n..]
  {
  }

  lemma {:induction false} Regroup(done: string, a: string, b: string, tail: string)
    ensures done + (a + b + tail) == (done + a + b) + tail
  {
  }

  lemma {:induction false} OwedAfterHit(done: string, rest: string, search: string, replacement: string, i: nat)
    requires search != "" && Find(rest, search, 0) == i
    ensures i + |search| <= |rest|
    ensures done + ReplaceAll(rest, search, replacement)
         == (done + rest[..i] + replacement) + ReplaceAll(rest[i + |search|..], search, replacement)
  {
    Regroup(done, rest[..i], replacement, ReplaceAll(rest[i + |search|..], search, replacement));
  }

  /** One turn of the loop: the edit is made, and what is still owed shrinks to the unsearched part. */
  lemma {:induction false} ReplaceTurn(done: string, rest: string, search: string, replacement: string, next: nat)
    returns (done': string, rest': string)
    requires search != "" && Find(done + rest, search, |done|) == next
    ensures next + |search| <= |done + rest| && |rest'| < |rest|
    ensures (done + rest)[..next] + replacement + (done + rest)[next + |search|..] == done' + rest'
    ensures |done'| == next + |replacement|
    ensures done + ReplaceAll(rest, search, replacement) == done' + ReplaceAll(rest', search, replacement)
  {
    var i := next - |done|;
    assert Find(rest, search, 0) == i by { FindShift(done, rest, search, 0); }
    done', rest' := done + rest[..i] + replacement, rest[i + |search|..];
    assert (done + rest)[..next] + replacement + (done + rest)[next + |search|..] == done' + rest' by {
      EditAcross(done, rest, next, |search|, replacement);
    }
    OwedAfterHit(done, rest, search, replacement, i);
  }

  /** The find/replace loop. It ends although the replacement may contain the search string. */
  method Replace(subject: string, search: string, replacement: string) returns (r: string)
    requires search != ""
    ensures r == ReplaceAll(subject, search, replacement)
  {
    r := subject;
    var pos := 0;
    ghost var done, rest := "", subject;
    var next := Find(r, search, pos);
    while next != NPOS
      invariant r == done + rest && pos == |done|
      invariant next == Find(r, search, pos)
      invariant done + ReplaceAll(rest, search, replacement) == ReplaceAll(subject, search, replacement)
      decreases |rest|
    {
      done, rest := ReplaceTurn(done, rest, search, replacement, next);
      r := r[..next] + replacement + r[next + |search|..];
      pos := next + |replacement|;
      next := Find(r, search, pos);
    }
    FindShift(done, rest, search, 0);
  }

  /** Cuts at the leftmost matches that do not overlap. */
  function Split(s: string, separator: string): (pieces: seq<string>)
    requires separator != ""
    ensures |pieces| > 0
    decreases |s|
  {
    var i := Find(s, separator, 0);
    if i == NPOS then [s] else [s[..i]] + Split(s[i + |separator|..], separator)
  }

  function Join(pieces: seq<string>, glue: string): string {
    if |pieces| == 0 then ""
    else if |pieces| == 1 then pieces[0]
    else pieces[0] + glue + Join(pieces[1..], glue)
  }

  /** Splitting and joining with another glue is what the loop computes. */
  lemma {:induction false} ReplaceIsSplitJoin(s: string, search: string, replacement: string)
    requires search != ""
    ensures ReplaceAll(s, search, replacement) == Join(Split(s, search), replacement)
    decreases |s|
  {
    var i := Find(s, search, 0);
    if i != NPOS {
      var rest := s[i + |search|..];
      ReplaceIsSplitJoin(rest, search, replacement);
      assert Split(s, search)[1..] == Split(rest, search);
    }
  }

  predicate Free(piece: string, separator: string) {
    forall k: nat :: k <= |piece| ==> !MatchesAt(piece, separator, k)
  }

  lemma {:induction false} PrefixIsFree(s: string, separator: string, i: nat)
    requires separator != "" && i <= |s|
    requires forall k: nat :: k < i ==> !MatchesAt(s, separator, k)
    ensures Free(s[..i], separator)
  {
    forall k: nat | k <= i
      ensures !MatchesAt(s[..i], separator, k)
    {
      if k + |separator| <= i {
        assert s[..i][k..k + |separator|] == s[k..k + |separator|];
        assert !MatchesAt(s, separator, k);
      }
    }
  }

  lemma {:induction false} HitInTheMiddle(s: string, separator: string, i: nat)
    requires MatchesAt(s, separator, i)
    ensures s == s[..i] + separator + s[i + |separator|..]
  {
    assert s == s[..i] + s[i..i + |separator|] + s[i + |separator|..];
  }

  /** Split loses nothing and leaves no match behind, so it is the decomposition the loop is about. */
  lemma {:induction false} SplitIsExact(s: string, separator: string)
    requires separator != ""
    ensures Join(Split(s, separator), separator) == s
    ensures forall piece :: piece in Split(s, separator) ==> Free(piece, separator)
    decreases |s|
  {
    FindIsLeftmost(s, separator, 0);
    var i := Find(s, separator, 0);
    if i != NPOS {
      var rest := s[i + |separator|..];
      SplitIsExact(rest, separator);
      assert Free(s[..i], separator) by { PrefixIsFree(s, separator, i); }
      assert Split(s, separator)[1..] == Split(rest, separator);
      HitInTheMiddle(s, separator, i);
    }
  }

  /** Each cut is at the first match that the rest of the text offers. */
  lemma {:induction false} SplitIsLeftmost(s: string, separator: string, i: nat)
    requires separator != "" && i + 1 < |Split(s, separator)|
    ensures var piece := Split(s, separator)[i];
      forall k: nat :: k < |piece| ==> !MatchesAt(piece + separator, separator, k)
    decreases i
  {
    FindIsLeftmost(s, separator, 0);
    var n := Find(s, separator, 0);
    var rest := s[n + |separator|..];
    if i > 0 {
      SplitIsLeftmost(rest, separator, i - 1);
    } else {
      HitInTheMiddle(s, separator, n);
      forall k: nat | k < n
        ensures !MatchesAt(s[..n] + separator, separator, k)
      {
        assert !MatchesAt(s, separator, k);
        MatchOfPrefix(s[..n] + separator, rest, separator, k);
      }
    }
  }

  lemma {:induction false} MatchOfPrefix(front: string, rest: string, pattern: string, k: nat)
    ensures MatchesAt(front, pattern, k) ==> MatchesAt(front + rest, pattern, k)
  {
    if k + |pattern| <= |front| {
      assert (front + rest)[k..k + |pattern|] == front[k..k + |pattern|];
    }
  }

  /** With a one-character search string, the loop works on each character alone. */
  function Expanded(s: string, c: char, replacement: string): string {
    if s == "" then ""
    else (if s[0] == c then replacement else [s[0]]) + Expanded(s[1..], c, replacement)
  }

  lemma {:induction false} SkipOtherChar(s: string, c: char, replacement: string)
    requires s != "" && s[0] != c
    ensures ReplaceAll(s, [c], replacement) == [s[0]] + ReplaceAll(s[1..], [c], replacement)
  {
    var head, tail := [s[0]], s[1..];
    assert s[0..1] == head && head + tail == s;
    var i := Find(tail, [c], 0);
    assert Find(s, [c], 0) == if i == NPOS then NPOS else 1 + i by { FindShift(head, tail, [c], 0); }
    if i != NPOS {
      var owed := ReplaceAll(tail[i + 1..], [c], replacement);
      assert s[..1 + i] == head + tail[..i];
      assert s[1 + i + 1..] == tail[i + 1..];
      assert ReplaceAll(s, [c], replacement) == head + tail[..i] + replacement + owed;
      assert ReplaceAll(tail, [c], replacement) == tail[..i] + replacement + owed;
      Regroup(head, tail[..i], replacement, owed);
    }
  }

  lemma {:induction false} ReplaceOneChar(s: string, c: char, replacement: string)
    ensures ReplaceAll(s, [c], replacement) == Expanded(s, c, replacement)
  {
    if s != "" {
      ReplaceOneChar(s[1..], c, replacement);
      if s[0] == c {
        assert s[0..1] == [c] && s[..0] == "";
        assert Find(s, [c], 0) == 0;
      } else {
        SkipOtherChar(s, c, replacement);
      }
    }
  }

  lemma {:induction false} Reassociate<T>(a: seq<T>, b: seq<T>, c: seq<T>)
    ensures a + (b + c) == (a + b) + c
  {
  }

  lemma {:induction false} ReassociateFour(a: string, b: string, c: string, d: string)
    ensures a + (b + c) + d == a + b + (c + d)
  {
  }

  lemma {:induction false} ReassociateFive(a: string, b: string, c: string, d: string, e: string)
    ensures a + (b + (c + d)) + e == a + (b + c + (d + e))
  {
  }

  lemma {:induction false} ReassociateTail(a: string, b: string, c: string, d: string, e: string)
    ensures a + (b + c + d + e) == a + b + c + d + e
  {
  }
}
