/**
 drpdb/src/DIA2Doc.cpp: which getters of the DIA symbol interface work on which kind of symbol, measured over a list of
 files. The list of getters that `element` goes through is a parameter. A symbol is its tag and the getters that answer
 S_OK on it.
 */
module Documenter {
  import opened StringUtils

  /** `SymTagMax`, the number of tags; `Tag` in drpdb.h counts the same. */
  const SYM_TAG_MAX: nat := 42

  datatype Symbol = Symbol(tag: nat, answers: set<string>)

  predicate TagsInRange(symbols: seq<Symbol>) {
    forall k :: 0 <= k < |symbols| ==> symbols[k].tag < SYM_TAG_MAX
  }

  predicate NoRepeats(names: seq<string>) {
    forall i, j :: 0 <= i < j < |names| ==> names[i] != names[j]
  }

  function Elements(names: seq<string>): set<string> {
    set k | 0 <= k < |names| :: names[k]
  }

  lemma {:induction false} ElementsSnoc(names: seq<string>, name: string)
    ensures Elements(names + [name]) == Elements(names) + {name}
  {
    var all := names + [name];
    assert all[|names|] == name;
    forall k | 0 <= k < |names| ensures names[k] in Elements(all) {
      assert all[k] == names[k];
    }
  }

  lemma {:induction false} ElementsCons(names: seq<string>)
    requires names != []
    ensures Elements(names) == {names[0]} + Elements(names[1..])
  {
    forall name | name in Elements(names) ensures name in {names[0]} + Elements(names[1..]) {
      var k :| 0 <= k < |names| && names[k] == name;
      assert k > 0 ==> names[1..][k - 1] == name;
    }
  }

  // -------------------------------------------------------------- measuring

  /** The getters that some symbol of the tag answered. */
  function Succeeded(symbols: seq<Symbol>, tag: nat): set<string> {
    if symbols == [] then {}
    else Succeeded(symbols[1..], tag) + if symbols[0].tag == tag then symbols[0].answers else {}
  }

  lemma {:induction false} SucceededAppend(a: seq<Symbol>, b: seq<Symbol>, tag: nat)
    ensures Succeeded(a + b, tag) == Succeeded(a, tag) + Succeeded(b, tag)
  {
    if a == [] {
      assert a + b == b;
    } else {
      assert (a + b)[1..] == a[1..] + b;
      SucceededAppend(a[1..], b, tag);
    }
  }

  class ApiTest {
    const measured: array<seq<string>>

    constructor (log: array<seq<string>>)
      ensures measured == log
    {
      measured := log;
    }

    /**
     One getter on one symbol: it is recorded when it works, unless it already is. The source looks for the pointer to
     the name; the name finds the same entry, as `element` lists no getter twice and so has one literal for each.
     */
    method DefaultMeasure(tag: nat, name: string, symbol: Symbol)
      requires tag < measured.Length && NoRepeats(measured[tag])
      modifies measured
      ensures measured[..] == old(measured[..])[tag := measured[tag]]
      ensures NoRepeats(measured[tag]) && old(measured[tag]) <= measured[tag]
      ensures Elements(measured[tag]) == old(Elements(measured[tag])) + symbol.answers * {name}
    {
      if name !in measured[tag] {
        if name in symbol.answers {
          ElementsSnoc(measured[tag], name);
          measured[tag] := measured[tag] + [name];
        }
      }
    }

    /** All getters on one symbol. */
    method Element(symbol: Symbol, getters: seq<string>)
      requires symbol.tag < measured.Length && NoRepeats(measured[symbol.tag])
      modifies measured
      ensures measured[..] == old(measured[..])[symbol.tag := measured[symbol.tag]]
      ensures NoRepeats(measured[symbol.tag]) && old(measured[symbol.tag]) <= measured[symbol.tag]
      ensures Elements(measured[symbol.tag])
           == old(Elements(measured[symbol.tag])) + symbol.answers * Elements(getters)
    {
      assert Elements([]) == {};
      for g := 0 to |getters|
        invariant measured[..] == old(measured[..])[symbol.tag := measured[symbol.tag]]
        invariant NoRepeats(measured[symbol.tag]) && old(measured[symbol.tag]) <= measured[symbol.tag]
        invariant Elements(measured[symbol.tag])
               == old(Elements(measured[symbol.tag])) + symbol.answers * Elements(getters[..g])
      {
        DefaultMeasure(symbol.tag, getters[g], symbol);
        assert getters[..g + 1] == getters[..g] + [getters[g]];
        ElementsSnoc(getters[..g], getters[g]);
      }
      assert getters[..|getters|] == getters;
    }
  }

  /** What the lists hold after these symbols, whatever files they came from. */
  ghost predicate Measures(measured: seq<seq<string>>, symbols: seq<Symbol>, getters: seq<string>) {
    && |measured| == SYM_TAG_MAX
    && forall tag :: 0 <= tag < SYM_TAG_MAX ==>
         && NoRepeats(measured[tag])
         && Elements(measured[tag]) == Elements(getters) * Succeeded(symbols, tag)
  }

  lemma {:induction false} MeasuresOneMore(
      before: seq<seq<string>>, now: seq<seq<string>>, symbols: seq<Symbol>, symbol: Symbol, getters: seq<string>)
    requires Measures(before, symbols, getters) && symbol.tag < SYM_TAG_MAX
    requires |now| == |before| && now == before[symbol.tag := now[symbol.tag]]
    requires NoRepeats(now[symbol.tag])
    requires Elements(now[symbol.tag]) == Elements(before[symbol.tag]) + symbol.answers * Elements(getters)
    ensures Measures(now, symbols + [symbol], getters)
  {
    forall tag | 0 <= tag < SYM_TAG_MAX
      ensures NoRepeats(now[tag]) && Elements(now[tag]) == Elements(getters) * Succeeded(symbols + [symbol], tag)
    {
      SucceededAppend(symbols, [symbol], tag);
      assert [symbol][1..] == [];
      if tag != symbol.tag {
        assert now[tag] == before[tag];
      }
    }
  }

  /** `MeasureSymbols`: the symbols of one file, in the order the enumerator gives them. */
  method MeasureSymbols(tester: ApiTest, symbols: seq<Symbol>, getters: seq<string>, ghost earlier: seq<Symbol>)
    requires TagsInRange(symbols) && Measures(tester.measured[..], earlier, getters)
    modifies tester.measured
    ensures Measures(tester.measured[..], earlier + symbols, getters)
  {
    assert earlier + symbols[..0] == earlier;
    for k := 0 to |symbols|
      invariant Measures(tester.measured[..], earlier + symbols[..k], getters)
    {
      ghost var before := tester.measured[..];
      tester.Element(symbols[k], getters);
      MeasuresOneMore(before, tester.measured[..], earlier + symbols[..k], symbols[k], getters);
      assert earlier + symbols[..k + 1] == (earlier + symbols[..k]) + [symbols[k]];
    }
    assert symbols[..|symbols|] == symbols;
  }

  // ------------------------------------------------------------ order of names

  /** `strcmp(a, b) < 0`. */
  predicate Before(a: string, b: string) {
    b != "" && (a == "" || a[0] < b[0] || (a[0] == b[0] && Before(a[1..], b[1..])))
  }

  /** The names agree on k characters; then a ends, or has the smaller character. */
  predicate DiffersAt(a: string, b: string, k: nat) {
    k < |b| && k <= |a| && a[..k] == b[..k] && (k == |a| || a[k] < b[k])
  }

  lemma {:induction false} DifferenceBehind(a: string, b: string, k: nat)
    requires a != "" && b != "" && a[0] == b[0]
    ensures DiffersAt(a, b, k + 1) <==> DiffersAt(a[1..], b[1..], k)
  {
    if k < |b[1..]| && k <= |a[1..]| {
      assert a[..k + 1] == [a[0]] + a[1..][..k] && b[..k + 1] == [b[0]] + b[1..][..k];
      assert a[..k + 1][1..] == a[1..][..k] && b[..k + 1][1..] == b[1..][..k];
    }
  }

  /** The first character in which the names differ decides, and a name comes before those that go on from it. */
  lemma {:induction false} FirstDifferenceDecides(a: string, b: string)
    ensures Before(a, b) <==> exists k: nat :: DiffersAt(a, b, k)
  {
    if a != "" && b != "" && a[0] == b[0] {
      FirstDifferenceDecides(a[1..], b[1..]);
      if k: nat :| DiffersAt(a[1..], b[1..], k) {
        DifferenceBehind(a, b, k);
      }
      if k: nat :| DiffersAt(a, b, k) {
        assert k > 0;
        DifferenceBehind(a, b, k - 1);
      }
    } else {
      assert Before(a, b) ==> DiffersAt(a, b, 0);
      forall k: nat | 0 < k <= |a| && k <= |b|
        ensures a[..k] != b[..k]
      {
        assert a[..k][0] == a[0] && b[..k][0] == b[0];
      }
    }
  }

  lemma {:induction false} BeforeIsTotal(a: string, b: string)
    ensures !(Before(a, b) && Before(b, a))
    ensures Before(a, b) || Before(b, a) || a == b
    ensures !Before(a, a)
  {
    if a != "" && b != "" && a[0] == b[0] {
      BeforeIsTotal(a[1..], b[1..]);
      assert a == [a[0]] + a[1..] && b == [b[0]] + b[1..];
    }
    if a != "" {
      BeforeIsTotal(a[1..], a[1..]);
    }
  }

  lemma {:induction false} BeforeIsTransitive(a: string, b: string, c: string)
    requires Before(a, b) && Before(b, c)
    ensures Before(a, c)
  {
    if a != "" && a[0] == b[0] == c[0] {
      BeforeIsTransitive(a[1..], b[1..], c[1..]);
    }
  }

  predicate Increasing(names: seq<string>) {
    |names| > 1 ==> Before(names[0], names[1]) && Increasing(names[1..])
  }

  lemma {:induction false} FirstIsLeast(names: seq<string>, k: nat)
    requires Increasing(names) && 0 < k < |names|
    ensures Before(names[0], names[k])
  {
    if k > 1 {
      FirstIsLeast(names[1..], k - 1);
      BeforeIsTransitive(names[0], names[1], names[k]);
    }
  }

  lemma {:induction false} FirstOnlyOnce(names: seq<string>)
    requires Increasing(names) && names != []
    ensures names[0] !in Elements(names[1..])
    ensures forall name :: name in Elements(names) ==> name == names[0] || Before(names[0], name)
  {
    forall k | 0 < k < |names| ensures Before(names[0], names[k]) && names[k] != names[0] {
      FirstIsLeast(names, k);
      BeforeIsTotal(names[0], names[0]);
    }
    forall k | 0 <= k < |names[1..]| ensures names[1..][k] != names[0] {
      assert names[1..][k] == names[k + 1];
    }
  }

  /** There is one way to put a set of names in order, so it does not matter how `std::sort` goes about it. */
  lemma {:induction false} OrderIsUnique(a: seq<string>, b: seq<string>)
    requires Increasing(a) && Increasing(b) && Elements(a) == Elements(b)
    ensures a == b
  {
    if a == [] {
      EmptyHasNoElements(b);
    } else if b == [] {
      EmptyHasNoElements(a);
    } else {
      FirstOnlyOnce(a);
      FirstOnlyOnce(b);
      ElementsCons(a);
      ElementsCons(b);
      BeforeIsTotal(a[0], b[0]);
      assert a[0] in Elements(b) && b[0] in Elements(a);
      assert Elements(a[1..]) == Elements(a) - {a[0]};
      assert Elements(b[1..]) == Elements(b) - {b[0]};
      OrderIsUnique(a[1..], b[1..]);
      assert a == [a[0]] + a[1..] && b == [b[0]] + b[1..];
    }
  }

  lemma {:induction false} EmptyHasNoElements(names: seq<string>)
    ensures names == [] <==> Elements(names) == {}
  {
    if names != [] {
      assert names[0] in Elements(names);
    }
  }

  /** `std::sort`, by what it does: put each name in its place. */
  function Sorted(names: seq<string>): seq<string> {
    if names == [] then [] else Placed(names[0], Sorted(names[1..]))
  }

  function Placed(name: string, sorted: seq<string>): seq<string> {
    if sorted != [] && Before(sorted[0], name) then [sorted[0]] + Placed(name, sorted[1..]) else [name] + sorted
  }

  lemma {:induction false} PlacedInOrder(name: string, sorted: seq<string>)
    requires Increasing(sorted) && name !in Elements(sorted)
    ensures Increasing(Placed(name, sorted)) && Elements(Placed(name, sorted)) == Elements(sorted) + {name}
  {
    var placed := Placed(name, sorted);
    ElementsCons(placed);
    if sorted != [] {
      ElementsCons(sorted);
      BeforeIsTotal(sorted[0], name);
      if Before(sorted[0], name) {
        PlacedInOrder(name, sorted[1..]);
        assert placed[1..] == Placed(name, sorted[1..]);
      } else {
        assert placed[1..] == sorted;
      }
    } else {
      assert placed[1..] == [];
    }
  }

  /** Sorting keeps the set and orders it. */
  lemma {:induction false} SortedIsInOrder(names: seq<string>)
    requires NoRepeats(names)
    ensures Increasing(Sorted(names)) && Elements(Sorted(names)) == Elements(names)
  {
    if names != [] {
      SortedIsInOrder(names[1..]);
      ElementsCons(names);
      FirstIsNew(names);
      PlacedInOrder(names[0], Sorted(names[1..]));
    }
  }

  lemma {:induction false} FirstIsNew(names: seq<string>)
    requires NoRepeats(names) && names != []
    ensures names[0] !in Elements(names[1..])
  {
    forall k | 0 <= k < |names[1..]| ensures names[1..][k] != names[0] {
      assert names[1..][k] == names[k + 1];
    }
  }

  // -------------------------------------------------------------- the lines

  function LineLength(text: string): (n: nat)
    ensures n <= |text| && (n < |text| ==> text[n] == '\n')
  {
    if text == "" || text[0] == '\n' then 0 else LineLength(text[1..]) + 1
  }

  lemma {:induction false} FirstLineIsFree(text: string)
    ensures '\n' !in text[..LineLength(text)]
  {
    if text != "" && text[0] != '\n' {
      FirstLineIsFree(text[1..]);
      assert text[..LineLength(text)] == [text[0]] + text[1..][..LineLength(text[1..])];
    }
  }

  function Lines(text: string): seq<string>
    decreases |text|
  {
    if text == "" then []
    else
      var n := LineLength(text);
      [text[..n]] + Lines(BehindFirst(text))
  }

  predicate NoNewlines(lines: seq<string>) {
    lines == [] || ('\n' !in lines[0] && NoNewlines(lines[1..]))
  }

  /** Every line with a newline behind it. */
  function Terminated(lines: seq<string>): string {
    if lines == [] then "" else lines[0] + "\n" + Terminated(lines[1..])
  }

  /** Whether the last line was ended. */
  predicate Ended(text: string) {
    text == "" || text[|text| - 1] == '\n'
  }

  /** The text behind the first line and its newline. */
  function BehindFirst(text: string): (rest: string)
    requires text != ""
    ensures |rest| < |text|
  {
    var n := LineLength(text);
    if n < |text| then text[n + 1..] else ""
  }

  lemma {:induction false} FirstLine(text: string)
    requires text != ""
    ensures var n := LineLength(text); var rest := BehindFirst(text);
      && (n < |text| ==> text == text[..n] + "\n" + rest && Ended(text) == Ended(rest))
      && (n == |text| ==> text[..n] == text && rest == "" && !Ended(text))
  {
    var n := LineLength(text);
    if n == |text| {
      FirstLineIsFree(text);
      assert text[..n] == text;
      assert text[|text| - 1] in text;
    }
  }

  /** Nothing is lost but whether the last line was ended. */
  lemma {:induction false} LinesRebuild(text: string)
    ensures NoNewlines(Lines(text))
    ensures Terminated(Lines(text)) == if Ended(text) then text else text + "\n"
    decreases |text|
  {
    if text != "" {
      var line, rest := text[..LineLength(text)], BehindFirst(text);
      FirstLine(text);
      FirstLineIsFree(text);
      LinesRebuild(rest);
      LinesCons(line, Lines(rest));
      Reassociate(line, "\n", rest);
      Reassociate(line + "\n", rest, "\n");
    }
  }

  lemma {:induction false} LinesCons(line: string, lines: seq<string>)
    ensures Terminated([line] + lines) == line + "\n" + Terminated(lines)
    ensures NoNewlines([line] + lines) == ('\n' !in line && NoNewlines(lines))
  {
    assert ([line] + lines)[1..] == lines;
  }

  /** Only one list of lines without newlines has this text. */
  lemma {:induction false} LinesAreUnique(a: seq<string>, b: seq<string>)
    requires NoNewlines(a) && NoNewlines(b) && Terminated(a) == Terminated(b)
    ensures a == b
  {
    if a != [] && b != [] {
      var text := Terminated(a);
      FirstLineEnds(a);
      FirstLineEnds(b);
      assert a[0] == text[..|a[0]|] && b[0] == text[..|b[0]|];
      assert text[|a[0]| + 1..] == Terminated(a[1..]) && text[|b[0]| + 1..] == Terminated(b[1..]);
      LinesAreUnique(a[1..], b[1..]);
      assert a == [a[0]] + a[1..] && b == [b[0]] + b[1..];
    }
  }

  lemma {:induction false} FirstLineEnds(lines: seq<string>)
    requires NoNewlines(lines) && lines != []
    ensures var text := Terminated(lines); |lines[0]| < |text| && text[|lines[0]|] == '\n'
    ensures LineLength(Terminated(lines)) == |lines[0]|
  {
    LineLengthOf(lines[0], Terminated(lines[1..]));
  }

  lemma {:induction false} LineLengthOf(line: string, rest: string)
    requires '\n' !in line
    ensures LineLength(line + "\n" + rest) == |line|
  {
    if line != "" {
      assert (line + "\n" + rest)[1..] == line[1..] + "\n" + rest;
      LineLengthOf(line[1..], rest);
    }
  }

  /** `std::find(pos, intext.end(), '\n')` */
  function LineEnd(text: string, pos: nat): (next: nat)
    requires pos <= |text|
    ensures pos <= next <= |text|
    decreases |text| - pos
  {
    if pos == |text| || text[pos] == '\n' then pos else LineEnd(text, pos + 1)
  }

  function Behind(text: string, next: nat): nat {
    if next == |text| then next else next + 1
  }

  function LinesFrom(text: string, pos: nat): seq<string>
    requires pos <= |text|
    decreases |text| - pos
  {
    if pos == |text| then []
    else [text[pos..LineEnd(text, pos)]] + LinesFrom(text, Behind(text, LineEnd(text, pos)))
  }

  lemma {:induction false} LineEndIsLength(text: string, pos: nat)
    requires pos <= |text|
    ensures LineEnd(text, pos) == pos + LineLength(text[pos..])
    decreases |text| - pos
  {
    if pos < |text| && text[pos] != '\n' {
      LineEndIsLength(text, pos + 1);
      assert text[pos..][1..] == text[pos + 1..];
    }
  }

  lemma {:induction false} FirstFrom(text: string, pos: nat)
    requires pos < |text|
    ensures var rest, next := text[pos..], LineEnd(text, pos);
      && LineLength(rest) == next - pos && rest[..next - pos] == text[pos..next]
      && BehindFirst(rest) == text[Behind(text, next)..]
  {
    LineEndIsLength(text, pos);
  }

  lemma {:induction false} LinesOfRest(rest: string)
    requires rest != ""
    ensures Lines(rest) == [rest[..LineLength(rest)]] + Lines(BehindFirst(rest))
  {
  }

  lemma {:induction false} LinesFromAreLines(text: string, pos: nat)
    requires pos <= |text|
    ensures LinesFrom(text, pos) == Lines(text[pos..])
    decreases |text| - pos
  {
    if pos < |text| {
      FirstFrom(text, pos);
      LinesOfRest(text[pos..]);
      LinesFromAreLines(text, Behind(text, LineEnd(text, pos)));
    }
  }

  /** The loop over the file in.txt. */
  method SplitLines(intext: string) returns (files: seq<string>)
    ensures files == Lines(intext)
  {
    files := [];
    var pos := 0;
    assert LinesFrom(intext, 0) == Lines(intext) by {
      LinesFromAreLines(intext, 0);
      assert intext[0..] == intext;
    }
    while pos != |intext|
      invariant pos <= |intext|
      invariant files + LinesFrom(intext, pos) == Lines(intext)
      decreases |intext| - pos
    {
      var next := LineEnd(intext, pos);
      Reassociate(files, [intext[pos..next]], LinesFrom(intext, Behind(intext, next)));
      files := files + [intext[pos..next]];
      if next != |intext| {
        next := next + 1;
      }
      pos := next;
    }
  }

  // ----------------------------------------------------------- the document

  /** All symbols of the files, in order. */
  function SymbolsOf(files: seq<string>, session: string -> seq<Symbol>): seq<Symbol> {
    if files == [] then [] else session(files[0]) + SymbolsOf(files[1..], session)
  }

  lemma {:induction false} SymbolsOfSnoc(files: seq<string>, file: string, session: string -> seq<Symbol>)
    ensures SymbolsOf(files + [file], session) == SymbolsOf(files, session) + session(file)
  {
    if files == [] {
      assert files + [file] == [file] && [file][1..] == [];
    } else {
      assert (files + [file])[1..] == files[1..] + [file];
      SymbolsOfSnoc(files[1..], file, session);
      Reassociate(session(files[0]), SymbolsOf(files[1..], session), session(file));
    }
  }

  /** A symbol is among them exactly when it is in one of the files. */
  lemma {:induction false} SymbolsOfFiles(files: seq<string>, session: string -> seq<Symbol>, symbol: Symbol)
    ensures symbol in SymbolsOf(files, session) <==> exists file :: file in files && symbol in session(file)
  {
    if files != [] {
      SymbolsOfFiles(files[1..], session, symbol);
      assert files[0] in files && forall file :: file in files <==> file == files[0] || file in files[1..];
    }
  }

  /** One list per tag: what worked on some symbol of the tag, in the order of `strcmp`. */
  ghost predicate Documents(lists: seq<seq<string>>, symbols: seq<Symbol>, getters: seq<string>) {
    && |lists| == SYM_TAG_MAX
    && forall tag :: 0 <= tag < SYM_TAG_MAX ==>
         && Increasing(lists[tag])
         && Elements(lists[tag]) == Elements(getters) * Succeeded(symbols, tag)
  }

  /** The loop that sorts and writes the lists. */
  method SortLists(measured: array<seq<string>>, ghost symbols: seq<Symbol>, ghost getters: seq<string>)
    requires Measures(measured[..], symbols, getters)
    modifies measured
    ensures Documents(measured[..], symbols, getters)
  {
    for i := 0 to SYM_TAG_MAX
      invariant forall tag :: 0 <= tag < i ==> measured[tag] == Sorted(old(measured[tag]))
      invariant forall tag :: i <= tag < SYM_TAG_MAX ==> measured[tag] == old(measured[tag])
    {
      measured[i] := Sorted(measured[i]);
    }
    forall tag | 0 <= tag < SYM_TAG_MAX
      ensures Increasing(measured[tag]) && Elements(measured[tag]) == Elements(getters) * Succeeded(symbols, tag)
    {
      assert old(measured[..])[tag] == old(measured[tag]);
      SortedIsInOrder(old(measured[tag]));
    }
  }

  /** The loop over the files; session gives the symbols of a file. */
  method MeasureFiles(
      measured: array<seq<string>>, files: seq<string>, session: string -> seq<Symbol>, getters: seq<string>)
    requires Measures(measured[..], [], getters)
    requires forall file :: file in files ==> TagsInRange(session(file))
    modifies measured
    ensures Measures(measured[..], SymbolsOf(files, session), getters)
  {
    assert SymbolsOf(files[..0], session) == [];
    for f := 0 to |files|
      invariant Measures(measured[..], SymbolsOf(files[..f], session), getters)
    {
      var tester := new ApiTest(measured);
      MeasureSymbols(tester, session(files[f]), getters, SymbolsOf(files[..f], session));
      assert SymbolsOf(files[..f + 1], session) == SymbolsOf(files[..f], session) + session(files[f]) by {
        SymbolsOfSnoc(files[..f], files[f], session);
        assert files[..f + 1] == files[..f] + [files[f]];
      }
    }
    assert files[..|files|] == files;
  }

  lemma {:induction false} NothingMeasured(measured: seq<seq<string>>, getters: seq<string>)
    requires |measured| == SYM_TAG_MAX && forall tag :: 0 <= tag < SYM_TAG_MAX ==> measured[tag] == []
    ensures Measures(measured, [], getters)
  {
    assert Elements([]) == {};
  }

  /** self is the path of the running program, which is documented like the files that are listed. */
  method Document(intext: string, self: string, session: string -> seq<Symbol>, getters: seq<string>)
    returns (measured: array<seq<string>>)
    requires forall file :: file in Lines(intext) + [self] ==> TagsInRange(session(file))
    ensures Documents(measured[..], SymbolsOf(Lines(intext) + [self], session), getters)
  {
    var files := SplitLines(intext);
    files := files + [self];
    measured := new seq<string>[SYM_TAG_MAX](i => []);
    NothingMeasured(measured[..], getters);
    MeasureFiles(measured, files, session, getters);
    SortLists(measured, SymbolsOf(files, session), getters);
  }

  /** The outcome depends on the symbols as a set: neither their order nor that of the files can be told from it. */
  lemma {:induction false} DocumentIgnoresOrder(
      a: seq<seq<string>>, b: seq<seq<string>>, s: seq<Symbol>, t: seq<Symbol>, getters: seq<string>)
    requires Documents(a, s, getters) && Documents(b, t, getters)
    requires forall symbol :: symbol in s <==> symbol in t
    ensures a == b
  {
    forall tag | 0 <= tag < SYM_TAG_MAX ensures a[tag] == b[tag] {
      SucceededOfMembers(s, tag);
      SucceededOfMembers(t, tag);
      OrderIsUnique(a[tag], b[tag]);
    }
  }

  lemma {:induction false} SucceededOfMembers(symbols: seq<Symbol>, tag: nat)
    ensures forall name ::
      name in Succeeded(symbols, tag)
      <==> exists symbol :: symbol in symbols && symbol.tag == tag && name in symbol.answers
  {
    if symbols != [] {
      SucceededOfMembers(symbols[1..], tag);
      assert symbols == [symbols[0]] + symbols[1..];
    }
  }
}
