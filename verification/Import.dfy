/**
 The import state: the vectors of `SymbolData` (drpdb/src/drpdb.h) and the steps of `Dia2SymbolProvider`
 (drpdb/src/DIA2Input.cpp) that fill them. An incoming symbol, line or source file is a record of the values that the
 constructors read from it.
 */
module Import {
  import opened StringUtils
  import opened Enumerators

  type Dword = n: int | 0 <= n < 0x1_0000_0000
  type Qword = n: int | 0 <= n < 0x1_0000_0000_0000_0000

  /** `static_cast<uint32_t>` */
  function ToDword(n: nat): Dword {
    n % 0x1_0000_0000
  }

  // --------------------------------------------------------------- incoming

  /** What `AppendDetails` copies. */
  datatype Details = Details(
    backendBuild: Dword, backendMajor: Dword, backendMinor: Dword, backendQfe: Dword,
    frontendBuild: Dword, frontendMajor: Dword, frontendMinor: Dword, frontendQfe: Dword,
    language: Dword, platform: Dword,
    sdl: bool, pgo: bool, securityCheck: bool, managed: bool, debugInfo: bool, ltcg: bool,
    dataAligned: bool, hotpatchable: bool, cvtcil: bool, cilNetmodule: bool)

  const NO_DETAILS :=
    Details(0, 0, 0, 0, 0, 0, 0, 0, 0, 0, false, false, false, false, false, false, false, false, false, false)

  datatype DiaLine = DiaLine(compiland: Dword, sourceFile: Dword, lineBegin: Dword, lineEnd: Dword)

  datatype DiaSymbol = DiaSymbol(
    id: Dword, tag: Dword, classParent: Dword, lexicalParent: Dword, name: string, size: Qword, location: Dword,
    typeLine: Option<DiaLine>,
    library: string, compiler: string, editAndContinue: bool, ltcg: bool,
    details: Details)

  /** A source file may have no name; its compilands come from an enumerator, or None when there is none to be had. */
  datatype DiaSource = DiaSource(uniqueId: Dword, fileName: Option<string>, compilands: Option<seq<Answer<Dword>>>)

  // ----------------------------------------------------------------- tables

  /** The tables that grow by nothing but `emplace_back(diaSymbol, ...)`. */
  datatype TableId =
    | Exe | CompilandEnv | Function | Block | Data | Label | PublicSymbol | Enum | FunctionType | Pointer | Array
    | BuiltinType | Typedef | BaseClass | Friend | FunctionArg | VTablePtr | Thunk | Callsite | Inlined | Export
    | HeapAllocation

  const TAG_COMPILAND := 2
  const TAG_COMPILAND_DETAILS := 3
  const TAG_UDT := 11

  /** The `switch` of `ReadSymbol`, for the tags that fill one of these tables. */
  function TableOf(tag: Dword): Option<TableId> {
    match tag
    case 1 => Some(Exe)
    case 4 => Some(CompilandEnv)
    case 5 => Some(Function)
    case 6 => Some(Block)
    case 7 => Some(Data)
    case 9 => Some(Label)
    case 10 => Some(PublicSymbol)
    case 12 => Some(Enum)
    case 13 => Some(FunctionType)
    case 14 => Some(Pointer)
    case 15 => Some(Array)
    case 16 => Some(BuiltinType)
    case 17 => Some(Typedef)
    case 18 => Some(BaseClass)
    case 19 => Some(Friend)
    case 20 => Some(FunctionArg)
    case 25 => Some(VTablePtr)
    case 27 => Some(Thunk)
    case 31 => Some(Callsite)
    case 32 => Some(Inlined)
    case 39 => Some(Export)
    case 40 => Some(HeapAllocation)
    case _ => None
  }

  /** `struct Symbol` */
  datatype SymbolRow = SymbolRow(
    name: string, symbol: Dword, lexicalParent: Dword, parent: Dword, size: Qword, tag: nat, location: nat)

  const SENTINEL := SymbolRow("", 0, 0, 0, 0, 0, 0)

  /** The tag is cut to eight bits at the call of the constructor, and the location type by the cast to its `enum`. */
  function SymbolRowOf(d: DiaSymbol): SymbolRow {
    SymbolRow(d.name, d.id, d.lexicalParent, d.classParent, d.size, d.tag % 0x100, d.location % 0x100)
  }

  /** A row of one of the plain tables: the id it carries, and the record it was made from. */
  datatype TypedRow = TypedRow(symbol: Dword, made: DiaSymbol)

  /** Rows of `CompilandEnv` carry the id of their compiland, and those of `BaseClass` that of the derived class. */
  predicate CarriesOwnId(t: TableId) {
    t != CompilandEnv && t != BaseClass
  }

  function TypedRowOf(t: TableId, d: DiaSymbol): TypedRow {
    TypedRow(if CarriesOwnId(t) then d.id else if t == CompilandEnv then d.lexicalParent else d.classParent, d)
  }

  datatype Compiland =
    Compiland(symbol: Dword, library: string, compiler: string, editAndContinue: bool, details: Details)

  function CompilandOf(d: DiaSymbol): Compiland {
    Compiland(d.id, d.library, d.compiler, d.editAndContinue, NO_DETAILS.(ltcg := d.ltcg))
  }

  /** `AppendDetails`: the language is cut to eight bits by the cast to its `enum`. */
  function Appended(details: Details): Details {
    details.(language := details.language % 0x100)
  }

  datatype UserType = UserType(symbol: Dword, srcLine: Dword)

  datatype SrcRange = SrcRange(id: Dword, line: DiaLine)

  datatype SourceFile = SourceFile(id: Dword, path: string)

  function SourceFileOf(source: DiaSource): SourceFile {
    SourceFile(source.uniqueId, if source.fileName.Some? then source.fileName.value else "")
  }

  datatype Included = Included(compiland: Dword, source: Dword)

  function Rows(typed: map<TableId, seq<TypedRow>>, t: TableId): seq<TypedRow> {
    if t in typed then typed[t] else []
  }

  // ------------------------------------------------------------------ steps

  datatype State = State(
    symbol: seq<SymbolRow>,
    typed: map<TableId, seq<TypedRow>>,
    compiland: seq<Compiland>,
    userType: seq<UserType>,
    srcRange: seq<SrcRange>,
    sourceFile: seq<SourceFile>,
    included: seq<Included>,
    compilandMap: map<Dword, Dword>)

  function AddRange(st: State, line: DiaLine): State {
    st.(srcRange := st.srcRange + [SrcRange(ToDword(|st.srcRange|), line)])
  }

  function AddUserType(st: State, d: DiaSymbol): State {
    match d.typeLine
    case None => st.(userType := st.userType + [UserType(d.id, 0)])
    case Some(line) => AddRange(st.(userType := st.userType + [UserType(d.id, ToDword(|st.srcRange|))]), line)
  }

  function AddCompiland(st: State, d: DiaSymbol): State {
    st.(compilandMap := st.compilandMap[d.id := ToDword(|st.compiland|)], compiland := st.compiland + [CompilandOf(d)])
  }

  /** `SymCompilandMap[id]`: looking up a missing key enters it with 0. */
  function Entered(m: map<Dword, Dword>, id: Dword): map<Dword, Dword> {
    if id in m then m else m[id := 0]
  }

  /** None when the row index is out of range, where the behaviour of the program is undefined. */
  function AddDetails(st: State, d: DiaSymbol): Option<State> {
    var entered := Entered(st.compilandMap, d.lexicalParent);
    var k := entered[d.lexicalParent];
    if k >= |st.compiland| then None
    else
      var item := st.compiland[k].(details := Appended(d.details));
      Some(st.(compilandMap := entered, compiland := st.compiland[k := item]))
  }

  function AddTyped(st: State, d: DiaSymbol): State {
    match TableOf(d.tag)
    case None => st
    case Some(t) => st.(typed := st.typed[t := Rows(st.typed, t) + [TypedRowOf(t, d)]])
  }

  function AddSymbol(st: State, d: DiaSymbol): Option<State> {
    var listed := st.(symbol := st.symbol + [SymbolRowOf(d)]);
    if d.tag == TAG_COMPILAND then Some(AddCompiland(listed, d))
    else if d.tag == TAG_COMPILAND_DETAILS then AddDetails(listed, d)
    else if d.tag == TAG_UDT then Some(AddUserType(listed, d))
    else Some(AddTyped(listed, d))
  }

  function IncludedRows(compilands: seq<Dword>, source: Dword): (rows: seq<Included>)
    ensures |rows| == |compilands|
  {
    if compilands == [] then [] else [Included(compilands[0], source)] + IncludedRows(compilands[1..], source)
  }

  lemma {:induction false} IncludedAppend(a: seq<Dword>, b: seq<Dword>, source: Dword)
    ensures IncludedRows(a + b, source) == IncludedRows(a, source) + IncludedRows(b, source)
  {
    if a == [] {
      assert a + b == b;
    } else {
      assert (a + b)[1..] == a[1..] + b;
      IncludedAppend(a[1..], b, source);
    }
  }

  function CompilandsOf(source: DiaSource): seq<Dword> {
    match source.compilands
    case None => []
    case Some(answers) => Recorded(answers)
  }

  function AddSource(st: State, source: DiaSource): State {
    st.(sourceFile := st.sourceFile + [SourceFileOf(source)],
        included := st.included + IncludedRows(CompilandsOf(source), source.uniqueId))
  }

  /** One element delivered by `ReadTables`; the tables may come in any order. */
  datatype Event = SymbolRead(d: DiaSymbol) | LineRead(line: DiaLine) | SourceRead(source: DiaSource)

  function Step(st: State, e: Event): Option<State> {
    match e
    case SymbolRead(d) => AddSymbol(st, d)
    case LineRead(line) => Some(AddRange(st, line))
    case SourceRead(source) => Some(AddSource(st, source))
  }

  /** `Result.Symbol.emplace_back()`, before anything is read. */
  const INITIAL := State([SENTINEL], map[], [], [], [], [], [], map[])

  // ------------------------------------------------------------ the program

  class SymbolData {
    var symbol: seq<SymbolRow>
    var typed: map<TableId, seq<TypedRow>>
    var compiland: seq<Compiland>
    var userType: seq<UserType>
    var srcRange: seq<SrcRange>
    var sourceFile: seq<SourceFile>
    var included: seq<Included>

    constructor ()
      ensures symbol == [] && typed == map[] && compiland == [] && userType == []
      ensures srcRange == [] && sourceFile == [] && included == []
    {
      symbol, typed, compiland, userType := [], map[], [], [];
      srcRange, sourceFile, included := [], [], [];
    }
  }

  class Dia2SymbolProvider {
    const result: SymbolData
    var symCompilandMap: map<Dword, Dword>

    constructor (result: SymbolData)
      ensures this.result == result && symCompilandMap == map[]
    {
      this.result := result;
      this.symCompilandMap := map[];
    }

    ghost function Now(): State
      reads this, result
    {
      State(result.symbol, result.typed, result.compiland, result.userType, result.srcRange, result.sourceFile,
            result.included, symCompilandMap)
    }

    method ReadLines(line: DiaLine)
      modifies result
      ensures Now() == AddRange(old(Now()), line)
    {
      result.srcRange := result.srcRange + [SrcRange(ToDword(|result.srcRange|), line)];
    }

    /** The inner loop of `ReadSource`. */
    method RecordBatch(compilands: seq<Dword>, source: Dword)
      modifies result`included
      ensures result.included == old(result.included) + IncludedRows(compilands, source)
    {
      ghost var goal := result.included + IncludedRows(compilands, source);
      assert compilands[0..] == compilands;
      for i := 0 to |compilands|
        invariant result.included + IncludedRows(compilands[i..], source) == goal
      {
        assert compilands[i..][1..] == compilands[i + 1..];
        Reassociate(result.included, [Included(compilands[i], source)], IncludedRows(compilands[i + 1..], source));
        result.included := result.included + [Included(compilands[i], source)];
      }
    }

    /** Its outer loop, which goes on for as long as the batches come with `S_OK`. */
    method RecordCompilands(enumerator: Enumerator<Dword>, source: Dword)
      modifies result`included, enumerator
      ensures result.included
        == old(result.included) + IncludedRows(Recorded(old(enumerator.answers)), source)
    {
      ghost var goal := result.included + IncludedRows(Recorded(enumerator.answers), source);
      while true
        invariant result.included + IncludedRows(Recorded(enumerator.answers), source) == goal
        decreases |enumerator.answers|
      {
        ghost var before := enumerator.answers;
        var answer := enumerator.Next();
        if answer.status.Ok? {
          IncludedAppend(answer.batch, Recorded(enumerator.answers), source);
          Reassociate(result.included, IncludedRows(answer.batch, source),
                      IncludedRows(Recorded(enumerator.answers), source));
          RecordBatch(answer.batch, source);
        } else {
          assert Recorded(before) == [];
          break;
        }
      }
    }

    method ReadSource(item: DiaSource)
      modifies result
      ensures Now() == AddSource(old(Now()), item)
    {
      result.sourceFile := result.sourceFile + [SourceFileOf(item)];
      match item.compilands {
        case None =>
          assert result.included + [] == result.included;
        case Some(answers) =>
          var enumerateCompilands := new Enumerator(answers);
          RecordCompilands(enumerateCompilands, item.uniqueId);
      }
    }

    method ReadUDTSymbol(d: DiaSymbol)
      modifies result
      ensures Now() == AddUserType(old(Now()), d)
    {
      result.userType := result.userType + [UserType(d.id, 0)];
      match d.typeLine {
        case None =>
        case Some(line) =>
          var id := ToDword(|result.srcRange|);
          var last := |result.userType| - 1;
          result.userType := result.userType[last := result.userType[last].(srcLine := id)];
          result.srcRange := result.srcRange + [SrcRange(id, line)];
      }
    }

    method ReadCompilandSymbol(d: DiaSymbol)
      modifies this, result
      ensures Now() == AddCompiland(old(Now()), d)
    {
      symCompilandMap := symCompilandMap[d.id := ToDword(|result.compiland|)];
      result.compiland := result.compiland + [CompilandOf(d)];
    }

    method ReadCompilandDetailsSymbol(d: DiaSymbol)
      requires AddDetails(Now(), d).Some?
      modifies this, result
      ensures Some(Now()) == AddDetails(old(Now()), d)
    {
      if d.lexicalParent !in symCompilandMap {
        symCompilandMap := symCompilandMap[d.lexicalParent := 0];
      }
      var k := symCompilandMap[d.lexicalParent];
      result.compiland := result.compiland[k := result.compiland[k].(details := Appended(d.details))];
    }

    method ReadSymbol(d: DiaSymbol)
      requires AddSymbol(Now(), d).Some?
      modifies this, result
      ensures Some(Now()) == AddSymbol(old(Now()), d)
    {
      result.symbol := result.symbol + [SymbolRowOf(d)];
      if d.tag == TAG_COMPILAND {
        ReadCompilandSymbol(d);
      } else if d.tag == TAG_COMPILAND_DETAILS {
        ReadCompilandDetailsSymbol(d);
      } else if d.tag == TAG_UDT {
        ReadUDTSymbol(d);
      } else {
        match TableOf(d.tag) {
          case None =>
          case Some(t) => result.typed := result.typed[t := Rows(result.typed, t) + [TypedRowOf(t, d)]];
        }
      }
    }
  }
}
