/** The script splitter of drpdb/src/MySQLOutput.cpp: `ParseProcedure`. */
module Procedures {
  import opened StringUtils
  import opened Directives

  /** The commands pushed so far, and whether `substr` threw `std::out_of_range` behind them. */
  datatype Parsed = Parsed(commands: seq<string>, thrown: bool)

  /** `std::string::substr(pos, count)`, for a position inside the string. */
  function Substr(s: string, pos: nat, count: nat): string
    requires pos <= |s|
  {
    if pos + count <= |s| then s[pos..pos + count] else s[pos..]
  }

  /** What the loop still pushes when it stands at `prev`. The count it passes is the end position `next`. */
  function ParseFrom(sequence: string, prev: nat): Parsed
    decreases |sequence| + 2 - prev
  {
    var next := Find(sequence, DIRECTIVE, prev);
    if next == NPOS then
      if prev > |sequence| then Parsed([], true) else Parsed([sequence[prev..]], false)
    else
      var rest := ParseFrom(sequence, next + 14);
      Parsed([Substr(sequence, prev, next)] + rest.commands, rest.thrown)
  }

  /** The pieces between the directives that the search stops at; None when there is no character behind the last. */
  function SegmentsFrom(s: string, prev: nat): (r: Option<seq<string>>)
    ensures r.Some? ==> |r.value| > 0
    decreases |s| + 2 - prev
  {
    var next := Find(s, DIRECTIVE, prev);
    if next == NPOS then
      if prev > |s| then None else Some([s[prev..]])
    else
      var rest :- SegmentsFrom(s, next + 14);
      Some([s[prev..next]] + rest)
  }

  function Segments(s: string): (r: Option<seq<string>>)
    ensures r.Some? ==> |r.value| > 0
  {
    SegmentsFrom(s, 0)
  }

  /** What `find` returns. */
  lemma {:induction false} FindsFirst(s: string, prev: nat)
    ensures var i := Find(s, DIRECTIVE, prev); if i == NPOS then Without(s, prev) else FirstAt(s, prev, i)
  {
    FindIsLeftmost(s, DIRECTIVE, prev);
  }

  lemma {:induction false} NoneBeyondTheEnd(s: string, prev: nat)
    requires prev > |s|
    ensures SegmentsFrom(s, prev) == None
  {
  }

  // ------------------------------------------------------------- throwing

  lemma {:induction false} ThrowsWithoutSegments(s: string, prev: nat)
    ensures ParseFrom(s, prev).thrown <==> SegmentsFrom(s, prev) == None
    decreases |s| + 2 - prev
  {
    var next := Find(s, DIRECTIVE, prev);
    if next != NPOS {
      ThrowsWithoutSegments(s, next + 14);
    }
  }

  lemma {:induction false} SegmentsFail(s: string, prev: nat)
    requires prev <= |s|
    ensures SegmentsFrom(s, prev) == None <==> RunBefore(s, |s|, prev) % 2 == 1
    decreases |s| - prev
  {
    FindsFirst(s, prev);
    var i := Find(s, DIRECTIVE, prev);
    if i != NPOS {
      if i + 14 <= |s| {
        RunStep(s, |s|, prev, i);
        SegmentsFail(s, i + 14);
      } else {
        NoneBeyondTheEnd(s, i + 14);
        NoneBeforeFirst(s, prev, i);
      }
    }
  }

  /**
   `substr` throws exactly on a script that closes with an odd number of directives, each right behind the one before:
   the search that goes on one character behind a directive misses every second one of these.
   */
  lemma {:induction false} ThrowsAtTheEnd(script: string)
    ensures ParseFrom(script, 0).thrown <==> ClosingRun(script) % 2 == 1
  {
    ThrowsWithoutSegments(script, 0);
    SegmentsFail(script, 0);
  }

  // ------------------------------------------------- commands and segments

  /** The end position passed as a count reaches beyond the segment, unless the segment starts the text. */
  lemma {:induction false} CountIsEndPosition(sequence: string, prev: nat, next: nat)
    requires prev <= next < |sequence|
    ensures sequence[prev..next] <= Substr(sequence, prev, next)
    ensures sequence[prev..next] == Substr(sequence, prev, next) <==> prev == 0
  {
    assert |Substr(sequence, prev, next)| == next - prev <==> prev == 0;
  }

  predicate StartWith(commands: seq<string>, segments: seq<string>) {
    |commands| == |segments| && forall i :: 0 <= i < |segments| ==> segments[i] <= commands[i]
  }

  /**
   Each command starts with its segment and the last is its segment. The first is its segment when it is the first of
   all, or the last. With three segments the second one is not its command.
   */
  predicate Match(prev: nat, commands: seq<string>, segments: seq<string>) {
    && segments != [] && StartWith(commands, segments)
    && commands[|commands| - 1] == segments[|segments| - 1]
    && (commands[0] == segments[0] <==> prev == 0 || |segments| == 1)
    && (|segments| > 2 ==> commands[1] != segments[1])
  }

  lemma {:induction false} MatchGrows(
      prev: nat, command: string, segment: string, next: nat, commands: seq<string>, segments: seq<string>)
    requires segment <= command && (segment == command <==> prev == 0)
    requires next > 0 && Match(next, commands, segments)
    ensures Match(prev, [command] + commands, [segment] + segments)
  {
  }

  /** One turn pushes one command and uses up one segment; -1 behind the last. */
  lemma {:induction false} OneTurn(s: string, prev: nat) returns (next: int)
    requires SegmentsFrom(s, prev).Some?
    ensures next < 0 ==>
      prev <= |s| && SegmentsFrom(s, prev).value == [s[prev..]] && ParseFrom(s, prev).commands == [s[prev..]]
    ensures next >= 0 ==>
      && prev <= next < |s| && At(s, next) && SegmentsFrom(s, next + 14).Some?
      && SegmentsFrom(s, prev).value == [s[prev..next]] + SegmentsFrom(s, next + 14).value
      && ParseFrom(s, prev).commands == [Substr(s, prev, next)] + ParseFrom(s, next + 14).commands
  {
    FindsFirst(s, prev);
    next := Find(s, DIRECTIVE, prev);
  }

  lemma {:induction false} CommandsMatch(s: string, prev: nat)
    requires SegmentsFrom(s, prev).Some?
    ensures Match(prev, ParseFrom(s, prev).commands, SegmentsFrom(s, prev).value)
    decreases |s| + 2 - prev
  {
    var next := OneTurn(s, prev);
    if next >= 0 {
      CommandsMatch(s, next + 14);
      CountIsEndPosition(s, prev, next);
      MatchGrows(prev, Substr(s, prev, next), s[prev..next], next + 14,
                 ParseFrom(s, next + 14).commands, SegmentsFrom(s, next + 14).value);
    }
  }

  /**
   The first and the last command are exactly their segments; the others start with theirs and run on into the text
   behind it, so the commands are the segments exactly when the search stopped at most once.
   */
  lemma {:induction false} CommandsAreSegments(script: string)
    requires Segments(script).Some?
    ensures var commands, segments := ParseFrom(script, 0).commands, Segments(script).value;
      && StartWith(commands, segments)
      && commands[0] == segments[0]
      && commands[|commands| - 1] == segments[|segments| - 1]
      && (commands == segments <==> |segments| <= 2)
  {
    CommandsMatch(script, 0);
    var commands, segments := ParseFrom(script, 0).commands, Segments(script).value;
    if |segments| == 1 {
      assert commands == [commands[0]] && segments == [segments[0]];
    } else if |segments| == 2 {
      assert commands == [commands[0], commands[1]] && segments == [segments[0], segments[1]];
    }
  }

  /**
   A segment stands at its place, with a directive behind it or the end of the text, and its command is cut out there.
   The last one reaches to the end; the others hold as many characters as there are in front of that directive in the
   whole text, or all that are left.
   */
  predicate IsCut(s: string, start: nat, command: string, segment: string, last: bool) {
    var end := start + |segment|;
    && end <= |s| && s[start..end] == segment
    && if last then end == |s| && command == s[start..]
       else At(s, end) && command == s[start..if start + end < |s| then start + end else |s|]
  }

  /** Each segment and its command, with a directive and one character more in front of the next. */
  predicate AllCut(s: string, start: nat, commands: seq<string>, segments: seq<string>)
    decreases |segments|
  {
    |commands| == |segments| &&
    (segments == [] ||
      (&& IsCut(s, start, commands[0], segments[0], |segments| == 1)
       && AllCut(s, start + |segments[0]| + 14, commands[1..], segments[1..])))
  }

  lemma {:induction false} FirstIsCut(s: string, prev: nat, next: nat)
    requires prev <= next < |s| && At(s, next)
    ensures IsCut(s, prev, Substr(s, prev, next), s[prev..next], false)
  {
  }

  lemma {:induction false} CutOnce(s: string, prev: nat, next: nat, commands: seq<string>, segments: seq<string>)
    requires segments != [] && prev <= next < |s| && At(s, next) && AllCut(s, next + 14, commands, segments)
    ensures AllCut(s, prev, [Substr(s, prev, next)] + commands, [s[prev..next]] + segments)
  {
    var cut, all := [Substr(s, prev, next)] + commands, [s[prev..next]] + segments;
    assert cut[1..] == commands && all[1..] == segments;
    FirstIsCut(s, prev, next);
  }

  lemma {:induction false} LastIsCut(s: string, prev: nat)
    requires prev <= |s|
    ensures AllCut(s, prev, [s[prev..]], [s[prev..]])
  {
    var segments := [s[prev..]];
    assert s[prev..|s|] == s[prev..] && segments[1..] == [];
  }

  lemma {:induction false} CommandsFrom(s: string, prev: nat)
    requires SegmentsFrom(s, prev).Some?
    ensures AllCut(s, prev, ParseFrom(s, prev).commands, SegmentsFrom(s, prev).value)
    decreases |s| + 2 - prev
  {
    var next := OneTurn(s, prev);
    if next < 0 {
      LastIsCut(s, prev);
    } else {
      CommandsFrom(s, next + 14);
      CutOnce(s, prev, next, ParseFrom(s, next + 14).commands, SegmentsFrom(s, next + 14).value);
    }
  }

  /** Every command of a script that does not throw is cut out like that. */
  lemma {:induction false} CommandsAreCut(script: string)
    requires Segments(script).Some?
    ensures AllCut(script, 0, ParseFrom(script, 0).commands, Segments(script).value)
  {
    CommandsFrom(script, 0);
  }

  // ------------------------------------------------ segments and the text

  /** The stops of the search: one for each directive, but for those that touch the one stopped at before. */
  lemma {:induction false} SegmentCount(s: string, prev: nat)
    requires SegmentsFrom(s, prev).Some?
    ensures |SegmentsFrom(s, prev).value| <= 1 + CountFrom(s, prev)
    ensures |SegmentsFrom(s, prev).value| == 1 + CountFrom(s, prev) <==> NoneTouch(s, prev)
    decreases |s| + 2 - prev
  {
    FindsFirst(s, prev);
    var i := Find(s, DIRECTIVE, prev);
    if i == NPOS {
      CountOfNone(s, prev);
    } else {
      CountStep(s, prev, i);
      NoneTouchStep(s, prev, i);
      SegmentCount(s, i + 14);
    }
  }

  /** There is at most one command more than directives, and exactly one more if and only if no two directives touch. */
  lemma {:induction false} OneMoreThanDirectives(script: string)
    requires ClosingRun(script) % 2 == 0
    ensures |ParseFrom(script, 0).commands| <= 1 + Count(script)
    ensures |ParseFrom(script, 0).commands| == 1 + Count(script) <==> NoneTouch(script, 0)
  {
    SegmentsFail(script, 0);
    CommandsAreSegments(script);
    SegmentCount(script, 0);
  }

  lemma {:induction false} PieceIsFree(s: string, prev: nat, next: nat)
    requires prev <= next <= |s| && forall k: nat :: prev <= k < next ==> !At(s, k)
    ensures Without(s[prev..next], 0)
  {
    forall k: nat
      ensures !At(s[prev..next], k)
    {
      AtInPiece(s, prev, next, k);
    }
  }

  /** No segment holds a directive. */
  lemma {:induction false} SegmentsAreFree(s: string, prev: nat)
    requires SegmentsFrom(s, prev).Some?
    ensures forall segment :: segment in SegmentsFrom(s, prev).value ==> Without(segment, 0)
    decreases |s| + 2 - prev
  {
    FindsFirst(s, prev);
    var next := Find(s, DIRECTIVE, prev);
    if next == NPOS {
      LastIsFree(s, prev);
    } else {
      PieceIsFree(s, prev, next);
      SegmentsAreFree(s, next + 14);
    }
  }

  lemma {:induction false} LastIsFree(s: string, prev: nat)
    requires prev <= |s| && SegmentsFrom(s, prev) == Some([s[prev..]])
    ensures Without(s[prev..], 0)
  {
    FindsFirst(s, prev);
    assert s[prev..] == s[prev..|s|];
    PieceIsFree(s, prev, |s|);
  }

  /** With a newline behind each directive, the segments are what stands between the directive lines. */
  lemma {:induction false} SegmentsRebuildFrom(s: string, prev: nat)
    requires SegmentsFrom(s, prev).Some?
    ensures prev <= |s|
    ensures Join(SegmentsFrom(s, prev).value, DIRECTIVE + "\n") == s[prev..] <==> NewlineBehindEach(s, prev)
    decreases |s| + 2 - prev
  {
    FindsFirst(s, prev);
    var i := Find(s, DIRECTIVE, prev);
    if i != NPOS {
      SegmentsRebuildFrom(s, i + 14);
      NewlineStep(s, prev, i);
      JoinedOnce(s[prev..i], SegmentsFrom(s, i + 14).value, DIRECTIVE + "\n");
      SameBehindDirective(s, prev, i, Join(SegmentsFrom(s, i + 14).value, DIRECTIVE + "\n"));
    }
  }

  lemma {:induction false} JoinedOnce(piece: string, pieces: seq<string>, glue: string)
    requires pieces != []
    ensures Join([piece] + pieces, glue) == piece + glue + Join(pieces, glue)
  {
    assert ([piece] + pieces)[1..] == pieces;
  }

  lemma {:induction false} SameBehindDirective(s: string, prev: nat, i: nat, joined: string)
    requires prev <= i && At(s, i) && i + 14 <= |s|
    ensures s[prev..i] + (DIRECTIVE + "\n") + joined == s[prev..] <==> NewlineBehind(s, i) && joined == s[i + 14..]
  {
    var other, rest := s[prev..i] + (DIRECTIVE + "\n") + joined, s[prev..];
    assert other[i - prev + 13] == '\n' && other[i - prev + 14..] == joined;
    assert rest[i - prev + 13] == s[i + 13] && rest[i - prev + 14..] == s[i + 14..];
    if NewlineBehind(s, i) && joined == s[i + 14..] {
      assert rest == s[prev..i] + s[i..i + 13] + [s[i + 13]] + s[i + 14..];
    }
  }

  /** Nothing but the directives and the newlines behind them is lost, exactly when each is followed by a newline. */
  lemma {:induction false} SegmentsRebuild(script: string)
    requires Segments(script).Some?
    ensures Join(Segments(script).value, DIRECTIVE + "\n") == script <==> NewlineBehindEach(script, 0)
  {
    assert script[0..] == script;
    SegmentsRebuildFrom(script, 0);
  }

  /**
   On a script with a newline behind each directive, there is one command more than directives. The script is made of
   parts without directives, with the directive lines between them; the first and the last command are exactly the first
   and the last part, and every command starts with its part. All commands are their parts exactly for at most one
   directive.
   */
  lemma {:induction false} ProcedureCommands(script: string)
    requires NewlineBehindEach(script, 0)
    ensures !ParseFrom(script, 0).thrown && Segments(script).Some?
    ensures var commands, parts := ParseFrom(script, 0).commands, Segments(script).value;
      && |commands| == |parts| == 1 + Count(script)
      && Join(parts, DIRECTIVE + "\n") == script
      && (forall part :: part in parts ==> Without(part, 0))
      && StartWith(commands, parts)
      && commands[0] == parts[0]
      && commands[|commands| - 1] == parts[|parts| - 1]
      && (commands == parts <==> Count(script) <= 1)
  {
    NewlinesDoNotClose(script);
    NewlinesSeparate(script, 0);
    ThrowsAtTheEnd(script);
    OneMoreThanDirectives(script);
    SegmentsFail(script, 0);
    CommandsAreSegments(script);
    SegmentsRebuild(script);
    SegmentsAreFree(script, 0);
  }

  /** A script with one directive is rebuilt from its two commands. */
  lemma {:induction false} OneDirectiveRebuilds(script: string)
    requires NewlineBehindEach(script, 0) && Count(script) == 1
    ensures |ParseFrom(script, 0).commands| == 2
    ensures Join(ParseFrom(script, 0).commands, DIRECTIVE + "\n") == script
  {
    ProcedureCommands(script);
  }

  /** Two directives that touch: the text ends with one, but nothing is thrown, and there are only two commands. */
  lemma {:induction false} TouchingDirectives()
    ensures var script := DIRECTIVE + DIRECTIVE;
      && |script| == 26 && At(script, 13) && Count(script) == 2
      && !ParseFrom(script, 0).thrown && |ParseFrom(script, 0).commands| == 2
  {
    var script := DIRECTIVE + DIRECTIVE;
    assert script[0..13] == DIRECTIVE && script[13..26] == DIRECTIVE;
    assert FirstAt(script, 0, 0);
    FindsFirst(script, 0);
    FindsFirst(script, 14);
    CountStep(script, 0, 0);
    CountOfNone(script, 14);
    assert Find(script, DIRECTIVE, 0) == 0;
    assert SegmentsFrom(script, 14) == Some([script[14..]]);
    ThrowsWithoutSegments(script, 0);
    CommandsAreSegments(script);
  }
}
