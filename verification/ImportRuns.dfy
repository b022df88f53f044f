/** What the import keeps over every run: any symbols, lines and source files, in any order. */
module ImportRuns {
  import opened StringUtils
  import opened Enumerators
  import opened Import

  /** The state after all events; None once the behaviour was undefined. */
  function Run(events: seq<Event>): Option<State> {
    if events == [] then Some(INITIAL)
    else
      var st :- Run(Front(events));
      Step(st, Last(events))
  }

  function Front(events: seq<Event>): seq<Event>
    requires events != []
  {
    events[..|events| - 1]
  }

  function Last(events: seq<Event>): Event
    requires events != []
  {
    events[|events| - 1]
  }

  /** The loop of `ReadTables`, on a fresh provider. */
  method ReadSymbols(provider: Dia2SymbolProvider, events: seq<Event>)
    requires provider.Now() == INITIAL.(symbol := []) && Run(events).Some?
    modifies provider, provider.result
    ensures Some(provider.Now()) == Run(events)
  {
    provider.result.symbol := provider.result.symbol + [SENTINEL];
    assert provider.Now() == INITIAL;
    for i := 0 to |events|
      invariant Some(provider.Now()) == Run(events[..i])
    {
      RunPrefix(events, i + 1);
      assert Front(events[..i + 1]) == events[..i] && Last(events[..i + 1]) == events[i];
      match events[i] {
        case SymbolRead(d) => provider.ReadSymbol(d);
        case LineRead(line) => provider.ReadLines(line);
        case SourceRead(source) => provider.ReadSource(source);
      }
    }
    assert events[..|events|] == events;
  }

  /** A run that is defined was defined all along. */
  lemma {:induction false} RunPrefix(events: seq<Event>, i: nat)
    requires i <= |events| && Run(events).Some?
    ensures Run(events[..i]).Some?
    decreases |events|
  {
    if i == |events| {
      assert events[..i] == events;
    } else {
      RunPrefix(Front(events), i);
      assert Front(events)[..i] == events[..i];
    }
  }

  // -------------------------------------------- the tables as queries on the run

  predicate IsSymbol(e: Event, tag: Dword) {
    e.SymbolRead? && e.d.tag == tag
  }

  function SymbolRows(events: seq<Event>): (rows: seq<SymbolRow>)
    ensures |rows| >= 1
  {
    if events == [] then [SENTINEL]
    else SymbolRows(Front(events)) + if Last(events).SymbolRead? then [SymbolRowOf(Last(events).d)] else []
  }

  function TypedRows(events: seq<Event>, t: TableId): seq<TypedRow> {
    if events == [] then []
    else
      TypedRows(Front(events), t)
      + if Last(events).SymbolRead? && Fills(Last(events).d, t) then [TypedRowOf(t, Last(events).d)] else []
  }

  predicate Fills(d: DiaSymbol, t: TableId) {
    TableOf(d.tag) == Some(t)
  }

  /** Every line that made a range, from whichever table it came. */
  function Lines(events: seq<Event>): seq<DiaLine> {
    if events == [] then []
    else Lines(Front(events)) + NewLines(Last(events))
  }

  function NewLines(e: Event): seq<DiaLine> {
    match e
    case LineRead(line) => [line]
    case SymbolRead(d) => if d.tag == TAG_UDT && d.typeLine.Some? then [d.typeLine.value] else []
    case _ => []
  }

  function UserTypes(events: seq<Event>): seq<UserType> {
    if events == [] then []
    else
      UserTypes(Front(events))
      + if !IsSymbol(Last(events), TAG_UDT) then []
        else [UserType(Last(events).d.id, if Last(events).d.typeLine.None? then 0 else ToDword(|Lines(Front(events))|))]
  }

  function CompilandIds(events: seq<Event>): seq<Dword> {
    if events == [] then []
    else CompilandIds(Front(events)) + if IsSymbol(Last(events), TAG_COMPILAND) then [Last(events).d.id] else []
  }

  function SourceFiles(events: seq<Event>): seq<SourceFile> {
    if events == [] then []
    else SourceFiles(Front(events)) + if Last(events).SourceRead? then [SourceFileOf(Last(events).source)] else []
  }

  function Includes(events: seq<Event>): seq<Included> {
    if events == [] then []
    else
      Includes(Front(events))
      + if Last(events).SourceRead? then IncludedRows(CompilandsOf(Last(events).source), Last(events).source.uniqueId)
        else []
  }

  function RangesFrom(lines: seq<DiaLine>, first: nat): (ranges: seq<SrcRange>)
    ensures |ranges| == |lines|
    ensures forall i :: 0 <= i < |lines| ==> ranges[i] == SrcRange(ToDword(first + i), lines[i])
  {
    seq(|lines|, i requires 0 <= i < |lines| => SrcRange(ToDword(first + i), lines[i]))
  }

  function IdsOf(compilands: seq<Compiland>): (ids: seq<Dword>)
    ensures |ids| == |compilands|
    ensures forall i :: 0 <= i < |ids| ==> ids[i] == compilands[i].symbol
  {
    seq(|compilands|, i requires 0 <= i < |compilands| => compilands[i].symbol)
  }

  lemma {:induction false} RangesAppend(a: seq<DiaLine>, b: seq<DiaLine>)
    ensures RangesFrom(a + b, 0) == RangesFrom(a, 0) + RangesFrom(b, |a|)
  {
  }

  /** What one step adds to each table. */
  lemma {:induction false} StepAddsSymbol(st: State, e: Event, next: State)
    requires Step(st, e) == Some(next)
    ensures next.symbol == st.symbol + if e.SymbolRead? then [SymbolRowOf(e.d)] else []
  {
  }

  lemma {:induction false} OwnStepsFillNone(d: DiaSymbol, t: TableId)
    requires d.tag == TAG_COMPILAND || d.tag == TAG_COMPILAND_DETAILS || d.tag == TAG_UDT
    ensures !Fills(d, t)
  {
  }

  lemma {:induction false} TypedStep(st: State, d: DiaSymbol, t: TableId)
    ensures Rows(AddTyped(st, d).typed, t) == Rows(st.typed, t) + if Fills(d, t) then [TypedRowOf(t, d)] else []
  {
    match TableOf(d.tag)
    case None =>
    case Some(other) => assert Fills(d, t) <==> other == t;
  }

  lemma {:induction false} StepAddsTyped(st: State, e: Event, next: State, t: TableId)
    requires Step(st, e) == Some(next)
    ensures Rows(next.typed, t)
         == Rows(st.typed, t) + if e.SymbolRead? && Fills(e.d, t) then [TypedRowOf(t, e.d)] else []
  {
    if e.SymbolRead? {
      var d := e.d;
      if d.tag == TAG_COMPILAND || d.tag == TAG_COMPILAND_DETAILS || d.tag == TAG_UDT {
        OwnStepsFillNone(d, t);
        OwnStepsKeepTyped(st, d, next);
      } else {
        var listed := st.(symbol := st.symbol + [SymbolRowOf(d)]);
        assert next == AddTyped(listed, d);
        TypedStep(listed, d, t);
      }
    } else {
      assert next.typed == st.typed;
    }
  }

  lemma {:induction false} OwnStepsKeepTyped(st: State, d: DiaSymbol, next: State)
    requires d.tag == TAG_COMPILAND || d.tag == TAG_COMPILAND_DETAILS || d.tag == TAG_UDT
    requires AddSymbol(st, d) == Some(next)
    ensures next.typed == st.typed
  {
  }

  lemma {:induction false} StepAddsSources(st: State, e: Event, next: State)
    requires Step(st, e) == Some(next)
    ensures next.sourceFile == st.sourceFile + if e.SourceRead? then [SourceFileOf(e.source)] else []
    ensures next.included == st.included
      + if e.SourceRead? then IncludedRows(CompilandsOf(e.source), e.source.uniqueId) else []
  {
  }

  lemma {:induction false} StepAddsRanges(st: State, e: Event, next: State)
    requires Step(st, e) == Some(next)
    ensures next.srcRange == st.srcRange + RangesFrom(NewLines(e), |st.srcRange|)
    ensures next.userType == st.userType + if !IsSymbol(e, TAG_UDT) then []
      else [UserType(e.d.id, if e.d.typeLine.None? then 0 else ToDword(|st.srcRange|))]
  {
  }

  lemma {:induction false} StepAddsCompilands(st: State, e: Event, next: State)
    requires Step(st, e) == Some(next)
    ensures IdsOf(next.compiland) == IdsOf(st.compiland) + if IsSymbol(e, TAG_COMPILAND) then [e.d.id] else []
  {
  }

  lemma {:induction false} SymbolsAreQuery(events: seq<Event>)
    requires Run(events).Some?
    ensures Run(events).value.symbol == SymbolRows(events)
  {
    if events != [] {
      SymbolsAreQuery(Front(events));
      StepAddsSymbol(Run(Front(events)).value, Last(events), Run(events).value);
    }
  }

  lemma {:induction false} TypedAreQuery(events: seq<Event>, t: TableId)
    requires Run(events).Some?
    ensures Rows(Run(events).value.typed, t) == TypedRows(events, t)
  {
    if events != [] {
      TypedAreQuery(Front(events), t);
      StepAddsTyped(Run(Front(events)).value, Last(events), Run(events).value, t);
    }
  }

  lemma {:induction false} RangesAreQuery(events: seq<Event>)
    requires Run(events).Some?
    ensures Run(events).value.srcRange == RangesFrom(Lines(events), 0)
    ensures Run(events).value.userType == UserTypes(events)
  {
    if events != [] {
      RangesAreQuery(Front(events));
      StepAddsRanges(Run(Front(events)).value, Last(events), Run(events).value);
      RangesAppend(Lines(Front(events)), NewLines(Last(events)));
    }
  }

  lemma {:induction false} CompilandsAreQuery(events: seq<Event>)
    requires Run(events).Some?
    ensures IdsOf(Run(events).value.compiland) == CompilandIds(events)
  {
    if events != [] {
      CompilandsAreQuery(Front(events));
      StepAddsCompilands(Run(Front(events)).value, Last(events), Run(events).value);
    }
  }

  lemma {:induction false} SourcesAreQuery(events: seq<Event>)
    requires Run(events).Some?
    ensures Run(events).value.sourceFile == SourceFiles(events)
    ensures Run(events).value.included == Includes(events)
  {
    if events != [] {
      SourcesAreQuery(Front(events));
      StepAddsSources(Run(Front(events)).value, Last(events), Run(events).value);
    }
  }

  // ---------------------------------------------------------- conservation

  /** The tag that fills a table; no other does. */
  function TagOf(t: TableId): (tag: Dword)
    ensures tag < 0x100 && forall other: Dword :: TableOf(other) == Some(t) <==> other == tag
  {
    match t
    case Exe => 1 case CompilandEnv => 4 case Function => 5 case Block => 6 case Data => 7 case Label => 9
    case PublicSymbol => 10 case Enum => 12 case FunctionType => 13 case Pointer => 14 case Array => 15
    case BuiltinType => 16 case Typedef => 17 case BaseClass => 18 case Friend => 19 case FunctionArg => 20
    case VTablePtr => 25 case Thunk => 27 case Callsite => 31 case Inlined => 32 case Export => 39
    case HeapAllocation => 40
  }

  /** The ids of the symbol rows with a tag, as a multiset. */
  function IdsTagged(rows: seq<SymbolRow>, tag: nat): multiset<Dword> {
    if rows == [] then multiset{}
    else IdsTagged(rows[..|rows| - 1], tag)
         + if rows[|rows| - 1].tag == tag then multiset{rows[|rows| - 1].symbol} else multiset{}
  }

  function IdsTyped(rows: seq<TypedRow>): multiset<Dword> {
    if rows == [] then multiset{}
    else IdsTyped(rows[..|rows| - 1]) + multiset{rows[|rows| - 1].symbol}
  }

  function IdsOfUserTypes(rows: seq<UserType>): multiset<Dword> {
    if rows == [] then multiset{}
    else IdsOfUserTypes(rows[..|rows| - 1]) + multiset{rows[|rows| - 1].symbol}
  }

  /** Symbols whose tag is only the same as `tag` once it is cut to eight bits. */
  function Aliases(events: seq<Event>, tag: Dword): nat {
    if events == [] then 0
    else
      Aliases(Front(events), tag)
      + if Aliased(Last(events), tag) then 1 else 0
  }

  /** The ids of the symbols read with a tag. */
  function IdsRead(events: seq<Event>, tag: Dword): multiset<Dword> {
    if events == [] then multiset{}
    else
      IdsRead(Front(events), tag) + if IsSymbol(Last(events), tag) then multiset{Last(events).d.id} else multiset{}
  }

  lemma {:induction false} IdsTypedSnoc(rows: seq<TypedRow>, row: TypedRow)
    ensures IdsTyped(rows + [row]) == IdsTyped(rows) + multiset{row.symbol}
  {
    assert (rows + [row])[..|rows|] == rows;
  }

  lemma {:induction false} TagFills(d: DiaSymbol, t: TableId)
    ensures Fills(d, t) <==> d.tag == TagOf(t)
  {
  }

  lemma {:induction false} TypedIds(events: seq<Event>, t: TableId)
    requires CarriesOwnId(t)
    ensures IdsTyped(TypedRows(events, t)) == IdsRead(events, TagOf(t))
  {
    if events != [] {
      var rows, e := TypedRows(Front(events), t), Last(events);
      TypedIds(Front(events), t);
      if e.SymbolRead? {
        TagFills(e.d, t);
      }
      if e.SymbolRead? && Fills(e.d, t) {
        assert TypedRows(events, t) == rows + [TypedRowOf(t, e.d)];
        IdsTypedSnoc(rows, TypedRowOf(t, e.d));
      } else {
        assert TypedRows(events, t) == rows;
      }
    }
  }

  lemma {:induction false} UserTypeIds(events: seq<Event>)
    ensures IdsOfUserTypes(UserTypes(events)) == IdsRead(events, TAG_UDT)
  {
    if events != [] {
      UserTypeIds(Front(events));
      var rows := UserTypes(Front(events));
      if IsSymbol(Last(events), TAG_UDT) {
        assert UserTypes(events)[..|rows|] == rows;
      } else {
        assert rows + [] == rows;
      }
    }
  }

  lemma {:induction false} CompilandIdsRead(events: seq<Event>)
    ensures multiset(CompilandIds(events)) == IdsRead(events, TAG_COMPILAND)
  {
    if events != [] {
      CompilandIdsRead(Front(events));
    }
  }

  lemma {:induction false} IdsTaggedSnoc(rows: seq<SymbolRow>, row: SymbolRow, tag: nat)
    ensures IdsTagged(rows + [row], tag)
         == IdsTagged(rows, tag) + if row.tag == tag then multiset{row.symbol} else multiset{}
  {
    assert (rows + [row])[..|rows|] == rows;
  }

  function One(id: Dword, there: bool): (ids: multiset<Dword>)
    ensures |ids| == if there then 1 else 0
  {
    if there then multiset{id} else multiset{}
  }

  /** The tag is only the same once it is cut to eight bits. */
  predicate Aliased(e: Event, tag: Dword) {
    e.SymbolRead? && e.d.tag != tag && e.d.tag % 0x100 == tag
  }

  lemma {:induction false} ListedAreTagged(events: seq<Event>, tag: Dword)
    requires events != [] && tag < 0x100 && Last(events).SymbolRead?
    ensures var e := Last(events);
      IdsTagged(SymbolRows(events), tag)
      == IdsTagged(SymbolRows(Front(events)), tag) + One(e.d.id, IsSymbol(e, tag) || Aliased(e, tag))
  {
    IdsTaggedSnoc(SymbolRows(Front(events)), SymbolRowOf(Last(events).d), tag);
  }

  /** The symbol rows with a tag hold the ids read with it, and besides those of its aliases. */
  lemma {:induction false} SymbolIds(events: seq<Event>, tag: Dword)
    requires 0 < tag < 0x100
    ensures IdsRead(events, tag) <= IdsTagged(SymbolRows(events), tag)
    ensures |IdsTagged(SymbolRows(events), tag)| == |IdsRead(events, tag)| + Aliases(events, tag)
  {
    if events == [] {
      IdsTaggedSnoc([], SENTINEL, tag);
      assert [] + [SENTINEL] == [SENTINEL];
    } else {
      var front, e := Front(events), Last(events);
      SymbolIds(front, tag);
      if e.SymbolRead? {
        ListedAreTagged(events, tag);
        assert IdsRead(events, tag) == IdsRead(front, tag) + One(e.d.id, IsSymbol(e, tag));
        IdsOfOneMore(IdsRead(front, tag), IdsTagged(SymbolRows(front), tag), Aliases(front, tag),
                     e.d.id, IsSymbol(e, tag), Aliased(e, tag));
      } else {
        assert SymbolRows(events) == SymbolRows(front);
      }
    }
  }

  /** One symbol more, which is read with the tag, or becomes one of its aliases, or neither. */
  lemma {:induction false} IdsOfOneMore(
      read: multiset<Dword>, listed: multiset<Dword>, aliases: nat, id: Dword, tagged: bool, alias: bool)
    requires read <= listed && |listed| == |read| + aliases && !(tagged && alias)
    ensures var read', listed' := read + One(id, tagged), listed + One(id, tagged || alias);
      read' <= listed' && |listed'| == |read'| + aliases + if alias then 1 else 0
  {
  }

  lemma {:induction false} SameSize<T>(a: multiset<T>, b: multiset<T>)
    requires a <= b && |a| == |b|
    ensures a == b
  {
    assert b == a + (b - a);
    assert |b - a| == 0;
  }

  lemma {:induction false} Conserved(events: seq<Event>, tag: Dword)
    requires 0 < tag < 0x100
    ensures IdsRead(events, tag) == IdsTagged(SymbolRows(events), tag) <==> Aliases(events, tag) == 0
  {
    SymbolIds(events, tag);
    if Aliases(events, tag) == 0 {
      SameSize(IdsRead(events, tag), IdsTagged(SymbolRows(events), tag));
    }
  }

  /**
   After every run, the ids in an id-carrying table are those of the symbol rows with its tag, exactly when no
   symbol had a larger tag that the eight-bit cast turns into it.
   */
  lemma {:induction false} ImportConserves(events: seq<Event>, t: TableId)
    requires Run(events).Some? && CarriesOwnId(t)
    ensures var st := Run(events).value;
      IdsTyped(Rows(st.typed, t)) == IdsTagged(st.symbol, TagOf(t)) <==> Aliases(events, TagOf(t)) == 0
  {
    SymbolsAreQuery(events);
    TypedAreQuery(events, t);
    TypedIds(events, t);
    Conserved(events, TagOf(t));
  }

  /** One symbol with tag 0x105 is listed as a function, but no function is there. */
  lemma {:induction false} AliasIsNotConserved(d: DiaSymbol)
    requires d.tag == 0x105
    ensures Run([SymbolRead(d)]).Some?
    ensures var st := Run([SymbolRead(d)]).value;
      IdsTagged(st.symbol, TagOf(Function)) == multiset{d.id} && Rows(st.typed, Function) == []
  {
    var events := [SymbolRead(d)];
    assert Front(events) == [] && Last(events) == SymbolRead(d);
    SymbolsAreQuery(events);
    var rows := SymbolRows(events);
    assert rows == [SENTINEL, SymbolRowOf(d)];
    assert rows[..1] == [SENTINEL] && [SENTINEL][..0] == [];
    assert IdsTagged([SENTINEL], 5) == multiset{};
  }

  /** The same for the two tables that have a step of their own. */
  lemma {:induction false} ImportConservesOthers(events: seq<Event>)
    requires Run(events).Some?
    ensures var st := Run(events).value;
      && (IdsOfUserTypes(st.userType) == IdsTagged(st.symbol, TAG_UDT) <==> Aliases(events, TAG_UDT) == 0)
      && (multiset(IdsOf(st.compiland)) == IdsTagged(st.symbol, TAG_COMPILAND) <==> Aliases(events, TAG_COMPILAND) == 0)
  {
    SymbolsAreQuery(events);
    RangesAreQuery(events);
    CompilandsAreQuery(events);
    UserTypeIds(events);
    CompilandIdsRead(events);
    Conserved(events, TAG_UDT);
    Conserved(events, TAG_COMPILAND);
  }

  /** How many symbol rows an id joins. */
  function JoinCount(rows: seq<SymbolRow>, id: Dword): nat {
    if rows == [] then 0
    else JoinCount(rows[..|rows| - 1], id) + if rows[|rows| - 1].symbol == id then 1 else 0
  }

  function TimesRead(events: seq<Event>, id: Dword): nat {
    if events == [] then 0
    else TimesRead(Front(events), id) + if Last(events).SymbolRead? && Last(events).d.id == id then 1 else 0
  }

  /**
   An id joins as many symbol rows as symbols were read with it, and the sentinel besides if it is 0. So every row
   of a function joins exactly one symbol row when ids are distinct and not 0.
   */
  lemma {:induction false} JoinsAsOftenAsRead(events: seq<Event>, id: Dword)
    requires Run(events).Some?
    ensures JoinCount(Run(events).value.symbol, id) == TimesRead(events, id) + if id == 0 then 1 else 0
  {
    SymbolsAreQuery(events);
    JoinsInQuery(events, id);
  }

  lemma {:induction false} JoinsInQuery(events: seq<Event>, id: Dword)
    ensures JoinCount(SymbolRows(events), id) == TimesRead(events, id) + if id == 0 then 1 else 0
  {
    if events == [] {
      assert [SENTINEL][..0] == [];
    } else {
      JoinsInQuery(Front(events), id);
      var rows := SymbolRows(Front(events));
      if Last(events).SymbolRead? {
        assert SymbolRows(events)[..|rows|] == rows;
      } else {
        assert rows + [] == rows;
      }
    }
  }

  lemma {:induction false} TypedRowWasRead(events: seq<Event>, t: TableId, row: TypedRow)
    requires CarriesOwnId(t) && row in TypedRows(events, t)
    ensures TimesRead(events, row.symbol) >= 1
  {
    if row in TypedRows(Front(events), t) {
      TypedRowWasRead(Front(events), t, row);
    }
  }

  /** A row of an id-carrying table joins exactly one symbol row if and only if its id is not 0 and was read once. */
  lemma {:induction false} RowJoinsOnce(events: seq<Event>, t: TableId, row: TypedRow)
    requires Run(events).Some? && CarriesOwnId(t) && row in Rows(Run(events).value.typed, t)
    ensures JoinCount(Run(events).value.symbol, row.symbol) == 1
       <==> row.symbol != 0 && TimesRead(events, row.symbol) == 1
  {
    TypedAreQuery(events, t);
    TypedRowWasRead(events, t, row);
    JoinsAsOftenAsRead(events, row.symbol);
  }

  // ------------------------------------------------------ rows and events

  function SymbolsRead(events: seq<Event>): nat {
    if events == [] then 0 else SymbolsRead(Front(events)) + if Last(events).SymbolRead? then 1 else 0
  }

  function TagsRead(events: seq<Event>, tag: Dword): nat {
    if events == [] then 0 else TagsRead(Front(events), tag) + if IsSymbol(Last(events), tag) then 1 else 0
  }

  function SourcesRead(events: seq<Event>): nat {
    if events == [] then 0 else SourcesRead(Front(events)) + if Last(events).SourceRead? then 1 else 0
  }

  /** How many compilands came with `S_OK`. */
  function CompilandCount(source: DiaSource): nat {
    match source.compilands
    case None => 0
    case Some(answers) => |Recorded(answers)|
  }

  function InclusionsRead(events: seq<Event>): nat {
    if events == [] then 0
    else InclusionsRead(Front(events)) + if Last(events).SourceRead? then CompilandCount(Last(events).source) else 0
  }

  /** The symbol table begins with the sentinel and has a row more than symbols were read. */
  lemma {:induction false} SentinelComesFirst(events: seq<Event>)
    requires Run(events).Some?
    ensures var symbols := Run(events).value.symbol;
      && |symbols| == 1 + SymbolsRead(events)
      && symbols[0].name == "" && symbols[0].symbol == symbols[0].lexicalParent == symbols[0].parent == 0
      && symbols[0].size == symbols[0].tag == symbols[0].location == 0
  {
    SymbolsAreQuery(events);
    SymbolsCounted(events);
  }

  lemma {:induction false} SymbolsCounted(events: seq<Event>)
    ensures |SymbolRows(events)| == 1 + SymbolsRead(events) && SymbolRows(events)[0] == SENTINEL
  {
    if events != [] {
      SymbolsCounted(Front(events));
    }
  }

  /** The row of a symbol stands behind the rows of those read before, with each column as it was read. */
  lemma {:induction false} SymbolRowAt(events: seq<Event>, i: nat)
    requires Run(events).Some? && i < |events| && events[i].SymbolRead?
    ensures var symbols, k, d := Run(events).value.symbol, 1 + SymbolsRead(events[..i]), events[i].d;
      && k < |symbols|
      && symbols[k].name == d.name && symbols[k].symbol == d.id && symbols[k].size == d.size
      && symbols[k].parent == d.classParent && symbols[k].lexicalParent == d.lexicalParent
      && symbols[k].tag == d.tag % 0x100 && symbols[k].location == d.location % 0x100
  {
    SymbolsAreQuery(events);
    SymbolListed(events, i);
  }

  lemma {:induction false} SymbolListed(events: seq<Event>, i: nat)
    requires i < |events| && events[i].SymbolRead?
    ensures 1 + SymbolsRead(events[..i]) < |SymbolRows(events)|
    ensures SymbolRows(events)[1 + SymbolsRead(events[..i])] == SymbolRowOf(events[i].d)
    decreases |events|
  {
    SymbolsCounted(Front(events));
    if i < |events| - 1 {
      SymbolListed(Front(events), i);
      assert Front(events)[..i] == events[..i];
    }
  }

  /** The same for the tables that only grow by their symbols; a row carries the id that its columns name. */
  lemma {:induction false} TypedRowAt(events: seq<Event>, i: nat, t: TableId)
    requires Run(events).Some? && i < |events| && IsSymbol(events[i], TagOf(t))
    ensures var rows, k, d := Rows(Run(events).value.typed, t), TagsRead(events[..i], TagOf(t)), events[i].d;
      && |rows| == TagsRead(events, TagOf(t)) && k < |rows| && rows[k].made == d
      && rows[k].symbol == (match t case CompilandEnv => d.lexicalParent case BaseClass => d.classParent case _ => d.id)
  {
    TypedAreQuery(events, t);
    TypedListed(events, i, t);
    TypedCounted(events, t);
  }

  lemma {:induction false} TypedCounted(events: seq<Event>, t: TableId)
    ensures |TypedRows(events, t)| == TagsRead(events, TagOf(t))
  {
    if events != [] {
      TypedCounted(Front(events), t);
      if Last(events).SymbolRead? {
        TagFills(Last(events).d, t);
      }
    }
  }

  lemma {:induction false} TypedListed(events: seq<Event>, i: nat, t: TableId)
    requires i < |events| && IsSymbol(events[i], TagOf(t))
    ensures TagsRead(events[..i], TagOf(t)) < |TypedRows(events, t)|
    ensures TypedRows(events, t)[TagsRead(events[..i], TagOf(t))] == TypedRowOf(t, events[i].d)
    decreases |events|
  {
    TypedCounted(Front(events), t);
    if i < |events| - 1 {
      TypedListed(Front(events), i, t);
      assert Front(events)[..i] == events[..i];
    } else {
      TagFills(events[i].d, t);
    }
  }

  lemma {:induction false} CompilandsRead(events: seq<Event>)
    ensures |CompilandIds(events)| == TagsRead(events, TAG_COMPILAND)
  {
    if events != [] {
      CompilandsRead(Front(events));
    }
  }

  lemma {:induction false} CompilandAdded(events: seq<Event>, i: nat)
    requires Run(events).Some? && i < |events| && IsSymbol(events[i], TAG_COMPILAND)
    ensures Run(events[..i + 1]).Some?
    ensures var k := TagsRead(events[..i], TAG_COMPILAND);
      && |CompilandIds(events[..i + 1])| == |Run(events[..i + 1]).value.compiland| == k + 1
      && Run(events[..i + 1]).value.compiland[k] == CompilandOf(events[i].d)
  {
    RunPrefix(events, i);
    RunPrefix(events, i + 1);
    assert Front(events[..i + 1]) == events[..i] && Last(events[..i + 1]) == events[i];
    CompilandsRead(events[..i]);
    CompilandsAreQuery(events[..i]);
    CompilandsRead(events[..i + 1]);
    CompilandsAreQuery(events[..i + 1]);
  }

  /** Whatever is read later, a compiland keeps all but its details. */
  lemma {:induction false} CompilandFields(events: seq<Event>, i: nat)
    requires Run(events).Some? && i < |events| && IsSymbol(events[i], TAG_COMPILAND)
    ensures var compilands, k, d := Run(events).value.compiland, TagsRead(events[..i], TAG_COMPILAND), events[i].d;
      k < |compilands| && compilands[k].(details := NO_DETAILS) == CompilandOf(d).(details := NO_DETAILS)
    decreases |events|
  {
    if i == |events| - 1 {
      assert events[..i + 1] == events;
      CompilandAdded(events, i);
    } else {
      CompilandFields(Front(events), i);
      assert Front(events)[..i] == events[..i];
      StepKeepsFields(Run(Front(events)).value, Last(events), Run(events).value, TagsRead(events[..i], TAG_COMPILAND));
    }
  }

  lemma {:induction false} StepKeepsFields(st: State, e: Event, next: State, k: nat)
    requires Step(st, e) == Some(next) && k < |st.compiland|
    ensures k < |next.compiland|
    ensures next.compiland[k].(details := NO_DETAILS) == st.compiland[k].(details := NO_DETAILS)
  {
  }

  /** The row of a source file, with its id and its name, stands behind those of the files read before. */
  lemma {:induction false} SourceFileAt(events: seq<Event>, i: nat)
    requires Run(events).Some? && i < |events| && events[i].SourceRead?
    ensures var files, k, source := Run(events).value.sourceFile, SourcesRead(events[..i]), events[i].source;
      && |files| == SourcesRead(events) && k < |files| && files[k].id == source.uniqueId
      && files[k].path == (match source.fileName case None => "" case Some(name) => name)
  {
    SourcesAreQuery(events);
    SourceListed(events, i);
    SourcesCounted(events);
  }

  lemma {:induction false} SourcesCounted(events: seq<Event>)
    ensures |SourceFiles(events)| == SourcesRead(events) && |Includes(events)| == InclusionsRead(events)
  {
    if events != [] {
      SourcesCounted(Front(events));
    }
  }

  lemma {:induction false} SourceListed(events: seq<Event>, i: nat)
    requires i < |events| && events[i].SourceRead?
    ensures SourcesRead(events[..i]) < |SourceFiles(events)|
    ensures SourceFiles(events)[SourcesRead(events[..i])] == SourceFileOf(events[i].source)
    decreases |events|
  {
    SourcesCounted(Front(events));
    if i < |events| - 1 {
      SourceListed(Front(events), i);
      assert Front(events)[..i] == events[..i];
    }
  }

  lemma {:induction false} IncludedRowAt(compilands: seq<Dword>, source: Dword, k: nat)
    requires k < |compilands|
    ensures IncludedRows(compilands, source)[k] == Included(compilands[k], source)
  {
    if k > 0 {
      IncludedRowAt(compilands[1..], source, k - 1);
    }
  }

  /** The k-th compiland of a source file makes the k-th of its inclusions, behind those of the files read before. */
  lemma {:induction false} InclusionAt(events: seq<Event>, i: nat, answers: seq<Answer<Dword>>, k: nat)
    requires Run(events).Some? && i < |events| && events[i].SourceRead?
    requires events[i].source.compilands == Some(answers) && k < |Recorded(answers)|
    ensures var included, n := Run(events).value.included, InclusionsRead(events[..i]) + k;
      && |included| == InclusionsRead(events) && n < |included|
      && included[n].compiland == Recorded(answers)[k] && included[n].source == events[i].source.uniqueId
  {
    SourcesAreQuery(events);
    SourcesCounted(events);
    InclusionListed(events, i, k);
  }

  lemma {:induction false} InclusionListed(events: seq<Event>, i: nat, k: nat)
    requires i < |events| && events[i].SourceRead? && k < |CompilandsOf(events[i].source)|
    ensures InclusionsRead(events[..i]) + k < |Includes(events)|
    ensures Includes(events)[InclusionsRead(events[..i]) + k]
         == Included(CompilandsOf(events[i].source)[k], events[i].source.uniqueId)
    decreases |events|
  {
    SourcesCounted(Front(events));
    if i < |events| - 1 {
      InclusionListed(Front(events), i, k);
      assert Front(events)[..i] == events[..i];
    } else {
      IncludedRowAt(CompilandsOf(events[i].source), events[i].source.uniqueId, k);
    }
  }

  /** Every inclusion names a source file that is there. */
  lemma {:induction false} InclusionsHaveSources(events: seq<Event>, inclusion: Included)
    requires Run(events).Some? && inclusion in Run(events).value.included
    ensures exists file :: file in Run(events).value.sourceFile && file.id == inclusion.source
  {
    SourcesAreQuery(events);
    SourceOfInclusion(events, inclusion);
  }

  lemma {:induction false} SourceOfInclusion(events: seq<Event>, inclusion: Included)
    requires inclusion in Includes(events)
    ensures exists file :: file in SourceFiles(events) && file.id == inclusion.source
  {
    if inclusion in Includes(Front(events)) {
      SourceOfInclusion(Front(events), inclusion);
      var file :| file in SourceFiles(Front(events)) && file.id == inclusion.source;
      assert file in SourceFiles(events);
    } else {
      var source := Last(events).source;
      var rows := IncludedRows(CompilandsOf(source), source.uniqueId);
      var k :| 0 <= k < |rows| && rows[k] == inclusion;
      IncludedRowAt(CompilandsOf(source), source.uniqueId, k);
      assert SourceFiles(events)[|SourceFiles(events)| - 1] == SourceFileOf(source);
    }
  }

  // ---------------------------------------------------------- source ranges

  /** Lines, and user types with a definition line. */
  function RangesMade(events: seq<Event>): nat {
    if events == [] then 0
    else
      RangesMade(Front(events))
      + if Last(events).LineRead? || (IsSymbol(Last(events), TAG_UDT) && Last(events).d.typeLine.Some?) then 1 else 0
  }

  lemma {:induction false} LinesCounted(events: seq<Event>)
    ensures |Lines(events)| == RangesMade(events) && |UserTypes(events)| == TagsRead(events, TAG_UDT)
  {
    if events != [] {
      LinesCounted(Front(events));
    }
  }

  lemma {:induction false} LinesPrefix(events: seq<Event>, i: nat)
    requires i <= |events|
    ensures Lines(events[..i]) <= Lines(events) && UserTypes(events[..i]) <= UserTypes(events)
    decreases |events|
  {
    if i == |events| {
      assert events[..i] == events;
    } else {
      LinesPrefix(Front(events), i);
      assert Front(events)[..i] == events[..i];
    }
  }

  /** Positions are ids exactly while there are at most 2^32 ranges; beyond that ids start over. */
  lemma {:induction false} RangeIds(events: seq<Event>)
    requires Run(events).Some?
    ensures var ranges := Run(events).value.srcRange;
      && (forall i :: 0 <= i < |ranges| ==> ranges[i].id == i % 0x1_0000_0000)
      && ((forall i :: 0 <= i < |ranges| ==> ranges[i].id == i) <==> |ranges| <= 0x1_0000_0000)
  {
    RangesAreQuery(events);
    NumberedFromZero(Lines(events));
  }

  lemma {:induction false} NumberedFromZero(lines: seq<DiaLine>)
    ensures var ranges := RangesFrom(lines, 0);
      && (forall i :: 0 <= i < |ranges| ==> ranges[i].id == i % 0x1_0000_0000)
      && ((forall i :: 0 <= i < |ranges| ==> ranges[i].id == i) <==> |ranges| <= 0x1_0000_0000)
  {
    var ranges := RangesFrom(lines, 0);
    forall i: nat | i < |ranges| ensures ranges[i].id == ToDword(i) && (ToDword(i) == i <==> i < 0x1_0000_0000) {
      DwordIsSmall(i);
    }
    if |ranges| > 0x1_0000_0000 {
      assert ranges[0x1_0000_0000].id != 0x1_0000_0000;
    }
  }

  function SameLines(n: nat, line: DiaLine): (events: seq<Event>)
    ensures |events| == n
  {
    if n == 0 then [] else SameLines(n - 1, line) + [LineRead(line)]
  }

  lemma {:induction false} SameLinesMakeRanges(n: nat, line: DiaLine)
    ensures Run(SameLines(n, line)).Some? && |Run(SameLines(n, line)).value.srcRange| == n
  {
    if n > 0 {
      SameLinesMakeRanges(n - 1, line);
      var events := SameLines(n, line);
      assert Front(events) == SameLines(n - 1, line) && Last(events) == LineRead(line);
    }
  }

  /** With one line more than there are ids, two ranges share the id 0. */
  lemma {:induction false} IdsStartOver(line: DiaLine)
    ensures var ranges := Run(SameLines(0x1_0000_0001, line));
      ranges.Some? && |ranges.value.srcRange| == 0x1_0000_0001
      && ranges.value.srcRange[0].id == ranges.value.srcRange[0x1_0000_0000].id == 0
  {
    SameLinesMakeRanges(0x1_0000_0001, line);
    RangeIds(SameLines(0x1_0000_0001, line));
  }

  /**
   The user type made from event i keeps the number of the range that was made with it, whatever is read later. The
   number is that range's position exactly when fewer than 2^32 ranges came before.
   */
  lemma {:induction false} UserTypeKeepsItsLine(events: seq<Event>, i: nat)
    requires Run(events).Some? && i < |events|
    requires IsSymbol(events[i], TAG_UDT) && events[i].d.typeLine.Some?
    ensures var st := Run(events).value;
      var k, n := TagsRead(events[..i], TAG_UDT), RangesMade(events[..i]);
      && k < |st.userType| && st.userType[k] == UserType(events[i].d.id, n % 0x1_0000_0000)
      && n < |st.srcRange| && st.srcRange[n] == SrcRange(n % 0x1_0000_0000, events[i].d.typeLine.value)
      && (st.userType[k].srcLine == n <==> n < 0x1_0000_0000)
  {
    RangesAreQuery(events);
    LinesPrefix(events, i + 1);
    NewUserType(events, i);
    LinesCounted(events[..i]);
    DwordIsSmall(RangesMade(events[..i]));
  }

  /** A user type without a definition line makes no range, and its line is 0. */
  lemma {:induction false} UserTypeWithoutLine(events: seq<Event>, i: nat)
    requires Run(events).Some? && i < |events|
    requires IsSymbol(events[i], TAG_UDT) && events[i].d.typeLine.None?
    ensures var userTypes, k := Run(events).value.userType, TagsRead(events[..i], TAG_UDT);
      k < |userTypes| && userTypes[k] == UserType(events[i].d.id, 0)
    ensures RangesMade(events[..i + 1]) == RangesMade(events[..i])
  {
    RangesAreQuery(events);
    LinesPrefix(events, i + 1);
    LinesCounted(events[..i]);
    assert Front(events[..i + 1]) == events[..i] && Last(events[..i + 1]) == events[i];
    assert UserTypes(events[..i + 1]) == UserTypes(events[..i]) + [UserType(events[i].d.id, 0)];
  }

  /** A line makes the range that is numbered by the ranges made before it. */
  lemma {:induction false} LineAt(events: seq<Event>, i: nat)
    requires Run(events).Some? && i < |events| && events[i].LineRead?
    ensures var ranges, n := Run(events).value.srcRange, RangesMade(events[..i]);
      && |ranges| == RangesMade(events) && n < |ranges|
      && ranges[n] == SrcRange(n % 0x1_0000_0000, events[i].line)
  {
    RangesAreQuery(events);
    LinesPrefix(events, i + 1);
    LinesCounted(events);
    LinesCounted(events[..i]);
    assert Front(events[..i + 1]) == events[..i] && Last(events[..i + 1]) == events[i];
    assert Lines(events[..i + 1]) == Lines(events[..i]) + [events[i].line];
  }

  lemma {:induction false} NewUserType(events: seq<Event>, i: nat)
    requires i < |events| && IsSymbol(events[i], TAG_UDT) && events[i].d.typeLine.Some?
    ensures UserTypes(events[..i + 1])
         == UserTypes(events[..i]) + [UserType(events[i].d.id, ToDword(|Lines(events[..i])|))]
    ensures Lines(events[..i + 1]) == Lines(events[..i]) + [events[i].d.typeLine.value]
  {
    assert Front(events[..i + 1]) == events[..i] && Last(events[..i + 1]) == events[i];
  }

  lemma {:induction false} DwordIsSmall(n: nat)
    ensures ToDword(n) == n <==> n < 0x1_0000_0000
  {
  }

  // -------------------------------------------------------------- compilands

  /** Every details record comes after some compiland. */
  predicate DetailsComeLater(events: seq<Event>) {
    events == [] ||
    (DetailsComeLater(Front(events)) &&
     (IsSymbol(Last(events), TAG_COMPILAND_DETAILS) ==> CompilandIds(Front(events)) != []))
  }

  /** The last position of an id, or 0 where it does not occur. */
  function LastPosition(ids: seq<Dword>, id: Dword): (k: nat)
    ensures ids != [] ==> k < |ids|
    ensures if id in ids then ids[k] == id && forall j :: k < j < |ids| ==> ids[j] != id else k == 0
  {
    if ids == [] then 0
    else if ids[|ids| - 1] == id then |ids| - 1
    else LastPosition(ids[..|ids| - 1], id)
  }

  lemma {:induction false} LastPositionOfMore(ids: seq<Dword>, added: Dword, id: Dword)
    ensures LastPosition(ids + [added], id) == if id == added then |ids| else LastPosition(ids, id)
  {
    assert (ids + [added])[..|ids|] == ids;
  }

  /**
   What the map keeps: each id of a compiland leads to the last row with that id, and every other entry, made by a
   details record whose compiland was not read before, leads to row 0.
   */
  predicate MapAgrees(compilandMap: map<Dword, Dword>, ids: seq<Dword>) {
    && (forall id :: id in ids ==> id in compilandMap)
    && (forall id :: id in compilandMap ==> compilandMap[id] == LastPosition(ids, id))
  }

  lemma {:induction false} CompilandKeepsMap(compilandMap: map<Dword, Dword>, ids: seq<Dword>, added: Dword)
    requires MapAgrees(compilandMap, ids) && |ids| < 0x1_0000_0000
    ensures MapAgrees(compilandMap[added := |ids|], ids + [added])
  {
    forall id | id in compilandMap[added := |ids|]
      ensures compilandMap[added := |ids|][id] == LastPosition(ids + [added], id)
    {
      LastPositionOfMore(ids, added, id);
    }
  }

  lemma {:induction false} DetailsKeepMap(compilandMap: map<Dword, Dword>, ids: seq<Dword>, id: Dword)
    requires MapAgrees(compilandMap, ids)
    ensures MapAgrees(Entered(compilandMap, id), ids) && Entered(compilandMap, id)[id] == LastPosition(ids, id)
  {
  }

  lemma {:induction false} StepAddsToMap(st: State, e: Event, next: State)
    requires Step(st, e) == Some(next)
    ensures next.compilandMap
         == if IsSymbol(e, TAG_COMPILAND) then st.compilandMap[e.d.id := ToDword(|st.compiland|)]
            else if IsSymbol(e, TAG_COMPILAND_DETAILS) then Entered(st.compilandMap, e.d.lexicalParent)
            else st.compilandMap
  {
  }

  lemma {:induction false} StepKeepsMap(st: State, e: Event, next: State, ids: seq<Dword>)
    requires Step(st, e) == Some(next) && MapAgrees(st.compilandMap, ids)
    requires |st.compiland| == |ids| && (IsSymbol(e, TAG_COMPILAND) ==> |ids| < 0x1_0000_0000)
    ensures MapAgrees(next.compilandMap, if IsSymbol(e, TAG_COMPILAND) then ids + [e.d.id] else ids)
  {
    StepAddsToMap(st, e, next);
    if IsSymbol(e, TAG_COMPILAND) {
      DwordIsSmall(|ids|);
      CompilandKeepsMap(st.compilandMap, ids, e.d.id);
    } else if IsSymbol(e, TAG_COMPILAND_DETAILS) {
      DetailsKeepMap(st.compilandMap, ids, e.d.lexicalParent);
    }
  }

  lemma {:induction false} RunKeepsMap(events: seq<Event>)
    requires Run(events).Some? && |CompilandIds(events)| <= 0x1_0000_0000
    ensures MapAgrees(Run(events).value.compilandMap, CompilandIds(events))
  {
    if events != [] {
      var e, ids := Last(events), CompilandIds(Front(events));
      assert CompilandIds(events) == if IsSymbol(e, TAG_COMPILAND) then ids + [e.d.id] else ids;
      RunKeepsMap(Front(events));
      CompilandsAreQuery(Front(events));
      StepKeepsMap(Run(Front(events)).value, e, Run(events).value, ids);
    }
  }

  lemma {:induction false} OtherStepsKeepCompilands(st: State, e: Event, next: State)
    requires Step(st, e) == Some(next) && !IsSymbol(e, TAG_COMPILAND) && !IsSymbol(e, TAG_COMPILAND_DETAILS)
    ensures next.compiland == st.compiland && next.compilandMap == st.compilandMap
  {
  }

  /** The run stays within bounds exactly when no details record comes before the first compiland. */
  lemma {:induction false} RunIsDefined(events: seq<Event>)
    requires |CompilandIds(events)| <= 0x1_0000_0000
    ensures Run(events).Some? <==> DetailsComeLater(events)
  {
    if events != [] {
      RunIsDefined(Front(events));
      if Run(Front(events)).Some? {
        RunKeepsMap(Front(events));
        CompilandsAreQuery(Front(events));
        if IsSymbol(Last(events), TAG_COMPILAND_DETAILS) {
          var st := Run(Front(events)).value;
          DetailsKeepMap(st.compilandMap, CompilandIds(Front(events)), Last(events).d.lexicalParent);
        }
      }
    }
  }

  /** A details record that comes first writes to a row that is not there. */
  lemma {:induction false} DetailsComeTooEarly(d: DiaSymbol)
    requires d.tag == TAG_COMPILAND_DETAILS
    ensures Run([SymbolRead(d)]) == None
  {
    var events := [SymbolRead(d)];
    assert Front(events) == [] && Last(events) == SymbolRead(d);
    RunIsDefined(events);
  }

  /**
   A details record changes the details of one compiland row and nothing else about that row or any other. The row is
   the last one read with the id of the record's lexical parent; if there was none before, it is row 0.
   */
  lemma {:induction false} DetailsHitTheirCompiland(events: seq<Event>, d: DiaSymbol)
    requires Run(events).Some? && 0 < |CompilandIds(events)| <= 0x1_0000_0000 && d.tag == TAG_COMPILAND_DETAILS
    ensures var st, next := Run(events).value, Run(events + [SymbolRead(d)]);
      var k := LastPosition(CompilandIds(events), d.lexicalParent);
      && next.Some? && k < |st.compiland|
      && next.value.compiland
         == st.compiland[k := st.compiland[k].(details := d.details.(language := d.details.language % 0x100))]
      && (st.compiland[k].symbol == d.lexicalParent <==> d.lexicalParent in CompilandIds(events))
      && (d.lexicalParent !in CompilandIds(events) ==> k == 0)
      && d.lexicalParent in next.value.compilandMap && next.value.compilandMap[d.lexicalParent] == k
  {
    var st, later := Run(events).value, events + [SymbolRead(d)];
    assert Front(later) == events && Last(later) == SymbolRead(d);
    RunKeepsMap(events);
    CompilandsAreQuery(events);
    DetailsKeepMap(st.compilandMap, CompilandIds(events), d.lexicalParent);
    var k := LastPosition(CompilandIds(events), d.lexicalParent);
    assert st.compiland[k].symbol == CompilandIds(events)[k];
    var listed := st.(symbol := st.symbol + [SymbolRowOf(d)]);
    assert Run(later) == AddDetails(listed, d);
  }

  lemma {:induction false} TwoCompilands(first: DiaSymbol, second: DiaSymbol)
    requires first.tag == second.tag == TAG_COMPILAND
    ensures var two := [SymbolRead(first), SymbolRead(second)];
      && Run(two).Some? && Run(two).value.compiland == [CompilandOf(first), CompilandOf(second)]
      && CompilandIds(two) == [first.id, second.id]
  {
    var one, two := [SymbolRead(first)], [SymbolRead(first), SymbolRead(second)];
    assert Front(one) == [] && Last(one) == SymbolRead(first);
    assert Front(two) == one && Last(two) == SymbolRead(second);
    assert Run(one).Some? && Run(one).value.compiland == [CompilandOf(first)];
    assert Step(Run(one).value, SymbolRead(second)).Some?;
    assert CompilandIds(one) == [first.id];
  }

  /** The id of the lexical parent decides, whatever the class parent is. */
  lemma {:induction false} LexicalParentDecides(first: DiaSymbol, second: DiaSymbol, d: DiaSymbol)
    requires first.tag == second.tag == TAG_COMPILAND && d.tag == TAG_COMPILAND_DETAILS
    requires first.id == 7 && second.id == 8 && d.lexicalParent == 8 && d.classParent != 8
    ensures var st := Run([SymbolRead(first), SymbolRead(second), SymbolRead(d)]);
      && st.Some? && |st.value.compiland| == 2
      && st.value.compiland[0].symbol == 7 && st.value.compiland[0].details == NO_DETAILS.(ltcg := first.ltcg)
      && st.value.compiland[1].symbol == 8
      && st.value.compiland[1].details == d.details.(language := d.details.language % 0x100)
  {
    var two := [SymbolRead(first), SymbolRead(second)];
    TwoCompilands(first, second);
    DetailsHitTheirCompiland(two, d);
    assert two + [SymbolRead(d)] == [SymbolRead(first), SymbolRead(second), SymbolRead(d)];
  }

  /** The j-th event is a details record that changes row k. */
  predicate HitsRow(events: seq<Event>, j: nat, k: nat)
    requires j < |events|
  {
    IsSymbol(events[j], TAG_COMPILAND_DETAILS) &&
    LastPosition(CompilandIds(events[..j]), events[j].d.lexicalParent) == k
  }

  lemma {:induction false} CompilandIdsPrefix(events: seq<Event>, n: nat)
    requires n <= |events|
    ensures CompilandIds(events[..n]) <= CompilandIds(events)
    decreases |events|
  {
    if n == |events| {
      assert events[..n] == events;
    } else {
      CompilandIdsPrefix(Front(events), n);
      assert Front(events)[..n] == events[..n];
    }
  }

  /** Rows that no details record hits stay as they are. */
  lemma {:induction false} RowStays(events: seq<Event>, n: nat, k: nat)
    requires Run(events).Some? && |CompilandIds(events)| <= 0x1_0000_0000
    requires n <= |events| && k < |CompilandIds(events[..n])|
    requires forall m: nat :: n <= m < |events| ==> !HitsRow(events, m, k)
    ensures Run(events[..n]).Some? && k < |Run(events[..n]).value.compiland|
    ensures k < |Run(events).value.compiland|
    ensures Run(events).value.compiland[k] == Run(events[..n]).value.compiland[k]
    decreases |events|
  {
    RunPrefix(events, n);
    CompilandsAreQuery(events[..n]);
    if n == |events| {
      assert events[..n] == events;
    } else {
      var front, e := Front(events), Last(events);
      assert front[..n] == events[..n] && events == front + [e];
      CompilandIdsPrefix(events, |front|);
      forall m: nat | n <= m < |front|
        ensures !HitsRow(front, m, k)
      {
        assert front[..m] == events[..m] && !HitsRow(events, m, k);
      }
      RowStays(front, n, k);
      OneStepKeepsRow(front, e, k);
    }
  }

  lemma {:induction false} OneStepKeepsRow(front: seq<Event>, e: Event, k: nat)
    requires Run(front + [e]).Some? && Run(front).Some? && |CompilandIds(front)| <= 0x1_0000_0000
    requires k < |Run(front).value.compiland| && !HitsRow(front + [e], |front|, k)
    ensures k < |Run(front + [e]).value.compiland|
    ensures Run(front + [e]).value.compiland[k] == Run(front).value.compiland[k]
  {
    var events := front + [e];
    assert Front(events) == front == events[..|front|] && Last(events) == e == events[|front|];
    var st, next := Run(front).value, Run(events).value;
    CompilandsAreQuery(front);
    if IsSymbol(e, TAG_COMPILAND_DETAILS) {
      DetailsHitTheirCompiland(front, e.d);
    } else if !IsSymbol(e, TAG_COMPILAND) {
      OtherStepsKeepCompilands(st, e, next);
    }
  }

  /** After every run a compiland row is the one made from its symbol, but for its details, whatever details came. */
  lemma {:induction false} CompilandAt(events: seq<Event>, i: nat)
    requires Run(events).Some? && |CompilandIds(events)| <= 0x1_0000_0000
    requires i < |events| && IsSymbol(events[i], TAG_COMPILAND)
    ensures var compilands, k, d := Run(events).value.compiland, TagsRead(events[..i], TAG_COMPILAND), events[i].d;
      && |compilands| == TagsRead(events, TAG_COMPILAND) && k < |compilands|
      && compilands[k].symbol == d.id && compilands[k].library == d.library && compilands[k].compiler == d.compiler
      && compilands[k].editAndContinue == d.editAndContinue
      && ((forall m: nat :: i < m < |events| ==> !HitsRow(events, m, k)) ==>
            compilands[k].details == NO_DETAILS.(ltcg := d.ltcg))
  {
    CompilandFields(events, i);
    CompilandsRead(events);
    CompilandsRead(events[..i]);
    CompilandsAreQuery(events);
    var k := TagsRead(events[..i], TAG_COMPILAND);
    if forall m: nat :: i < m < |events| ==> !HitsRow(events, m, k) {
      CompilandAdded(events, i);
      RowStays(events, i + 1, k);
    }
  }

  lemma {:induction false} DetailsAdded(events: seq<Event>, j: nat, k: nat)
    requires Run(events).Some? && |CompilandIds(events)| <= 0x1_0000_0000
    requires j < |events| && HitsRow(events, j, k)
    ensures Run(events[..j + 1]).Some?
    ensures k < |CompilandIds(events[..j + 1])| == |Run(events[..j + 1]).value.compiland|
    ensures var details := events[j].d.details;
      Run(events[..j + 1]).value.compiland[k].details == details.(language := details.language % 0x100)
  {
    var before, after, d := events[..j], events[..j + 1], events[j].d;
    assert after == before + [SymbolRead(d)] && Front(after) == before && Last(after) == events[j];
    RunPrefix(events, j);
    RunPrefix(events, j + 1);
    CompilandIdsPrefix(events, j);
    CompilandsAreQuery(after);
    RunIsDefined(after);
    DetailsHitTheirCompiland(before, d);
  }

  /** The details of a row are those of the last record that hits it. */
  lemma {:induction false} LastDetailsStay(events: seq<Event>, j: nat, k: nat)
    requires Run(events).Some? && |CompilandIds(events)| <= 0x1_0000_0000
    requires j < |events| && HitsRow(events, j, k)
    requires forall m: nat :: j < m < |events| ==> !HitsRow(events, m, k)
    ensures k < |Run(events).value.compiland|
    ensures var details := events[j].d.details;
      Run(events).value.compiland[k].details == details.(language := details.language % 0x100)
  {
    DetailsAdded(events, j, k);
    RowStays(events, j + 1, k);
  }
}
