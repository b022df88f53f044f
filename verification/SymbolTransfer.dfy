/**
 From the debug symbols to the server: what the import collects in `SymbolData::Symbol` is the table `symbols` that the
 export writes, and that table arrives whole for exactly the symbols stated here.
 */
module SymbolTransfer {
  import opened StringUtils
  import opened Reflection
  import opened Server
  import opened CsvWriter
  import opened SchemaRoundTrip
  import opened TableRoundTrip
  import opened Upload
  import opened UploadSafety
  import Import
  import ImportRuns

  predicate IsMember(m: Member, name: string, ty: MemberType, key: KeyKind) {
    m.name == name && m.ty == ty && m.key == key
  }

  /** An enumeration of C++: its spellings are distinct names, and 0, the value of the sentinel, is one of its codes. */
  predicate IsEnumeration(enumerators: seq<Enumerator>) {
    DistinctNames(enumerators) && (forall e :: e in enumerators ==> IsName(e.name)) && Listed(enumerators, 0)
  }

  /** `BEGIN_STRUCT(Symbol, symbols, ...)`, with any descriptions and any lists of tags and of location types. */
  predicate IsSymbolList(members: seq<Member>, tags: seq<Enumerator>, locations: seq<Enumerator>) {
    && IsEnumeration(tags) && IsEnumeration(locations)
    && |members| == 7
    && IsMember(members[0], "name", Characters, NotKey)
    && IsMember(members[1], "symbol", ULong, PrimaryKey)
    && IsMember(members[2], "lexical_parent_symbol", ULong, NotKey)
    && IsMember(members[3], "parent_symbol", ULong, NotKey)
    && IsMember(members[4], "size", ULongLong, NotKey)
    && IsMember(members[5], "tag", Enumeration(tags), NotKey)
    && IsMember(members[6], "location_type", Enumeration(locations), NotKey)
  }

  function RowOf(s: Import.SymbolRow): Row {
    [Chars(s.name), Number(s.symbol), Number(s.lexicalParent), Number(s.parent), Number(s.size), Code(s.tag),
     Code(s.location)]
  }

  function RowsOf(symbols: seq<Import.SymbolRow>): (rows: seq<Row>)
    ensures |rows| == |symbols|
    ensures forall i :: 0 <= i < |rows| ==> rows[i] == RowOf(symbols[i])
  {
    seq(|symbols|, i requires 0 <= i < |symbols| => RowOf(symbols[i]))
  }

  // ------------------------------------------------------------------- keys

  predicate WasRead(events: seq<Import.Event>, id: Import.Dword) {
    exists i :: 0 <= i < |events| && events[i].SymbolRead? && events[i].d.id == id
  }

  /** No symbol was read with the id 0, and no two with the same. */
  predicate IdsAreKeys(events: seq<Import.Event>) {
    && !WasRead(events, 0)
    && forall i, j :: 0 <= i < j < |events| && events[i].SymbolRead? && events[j].SymbolRead? ==>
         events[i].d.id != events[j].d.id
  }

  predicate HasSymbol(symbols: seq<Import.SymbolRow>, id: Import.Dword) {
    exists i :: 0 <= i < |symbols| && symbols[i].symbol == id
  }

  predicate SymbolsDiffer(symbols: seq<Import.SymbolRow>) {
    forall i, j :: 0 <= i < j < |symbols| ==> symbols[i].symbol != symbols[j].symbol
  }

  lemma {:induction false} ReadOnce(events: seq<Import.Event>, e: Import.Event)
    ensures var more := events + [e];
      IdsAreKeys(more) <==>
        IdsAreKeys(events) && (e.SymbolRead? ==> e.d.id != 0 && !WasRead(events, e.d.id))
  {
    var more := events + [e];
    assert more[|events|] == e && forall i :: 0 <= i < |events| ==> more[i] == events[i];
  }

  lemma {:induction false} SymbolAdded(symbols: seq<Import.SymbolRow>, s: Import.SymbolRow)
    ensures SymbolsDiffer(symbols + [s]) <==> SymbolsDiffer(symbols) && !HasSymbol(symbols, s.symbol)
    ensures forall id :: HasSymbol(symbols + [s], id) <==> HasSymbol(symbols, id) || id == s.symbol
  {
    var more := symbols + [s];
    assert more[|symbols|] == s && forall i :: 0 <= i < |symbols| ==> more[i] == symbols[i];
  }

  lemma {:induction false} HasWhatWasRead(events: seq<Import.Event>, id: Import.Dword)
    ensures HasSymbol(ImportRuns.SymbolRows(events), id) <==> id == 0 || WasRead(events, id)
  {
    if events == [] {
      assert ImportRuns.SymbolRows(events)[0].symbol == 0;
    } else {
      var front, e := ImportRuns.Front(events), ImportRuns.Last(events);
      HasWhatWasRead(front, id);
      assert events == front + [e];
      assert WasRead(events, id) <==> WasRead(front, id) || (e.SymbolRead? && e.d.id == id) by {
        assert events[|front|] == e;
      }
      if e.SymbolRead? {
        SymbolAdded(ImportRuns.SymbolRows(front), Import.SymbolRowOf(e.d));
      } else {
        assert ImportRuns.SymbolRows(events) == ImportRuns.SymbolRows(front);
      }
    }
  }

  /** The symbol rows have distinct ids exactly when the ids read are distinct and not that of the sentinel. */
  lemma {:induction false} KeysAreIds(events: seq<Import.Event>)
    ensures SymbolsDiffer(ImportRuns.SymbolRows(events)) <==> IdsAreKeys(events)
  {
    if events != [] {
      var front, e := ImportRuns.Front(events), ImportRuns.Last(events);
      KeysAreIds(front);
      assert events == front + [e];
      ReadOnce(front, e);
      if e.SymbolRead? {
        HasWhatWasRead(front, e.d.id);
        SymbolAdded(ImportRuns.SymbolRows(front), Import.SymbolRowOf(e.d));
      } else {
        assert ImportRuns.SymbolRows(events) == ImportRuns.SymbolRows(front);
      }
    }
  }

  lemma {:induction false} SecondIsKey(members: seq<Member>)
    requires |members| >= 2 && members[0].key.NotKey? && members[1].key.PrimaryKey? && Keyed(members[1])
    requires |ColumnName(members[0])| != |members[1].name|
    ensures KeyOf(members) == Some(1)
  {
    var name, tail := members[1].name, members[1..];
    assert PrimariesOf(members) == PrimariesOf(tail) && tail[0] == members[1];
    assert PrimariesOf(tail) == [name] + PrimariesOf(tail[1..]);
    var defs := DefsOf(members);
    assert defs[1..] == DefsOf(tail) && ColumnName(members[1]) == name;
    FoldedLength(ColumnName(members[0]));
    FoldedLength(name);
    assert IndexOf(defs[1..], name) == 0;
  }

  lemma {:induction false} KeyIsSymbol(members: seq<Member>, tags: seq<Enumerator>, locations: seq<Enumerator>)
    requires IsSymbolList(members, tags, locations)
    ensures KeyOf(members) == Some(1)
  {
    SecondIsKey(members);
  }

  lemma {:induction false} FoldedLength(name: string)
    ensures |Folded(name)| == |name|
  {
    if name != "" {
      FoldedLength(name[1..]);
    }
  }

  // --------------------------------------------------------------- contents

  /** What one symbol can lose on the way: the end of a long name, a tag or a location type without a spelling. */
  predicate SymbolFits(d: Import.DiaSymbol, tags: seq<Enumerator>, locations: seq<Enumerator>) {
    |d.name| <= MAX_VARCHAR && Listed(tags, d.tag % 0x100) && Listed(locations, d.location % 0x100)
  }

  predicate SymbolsFit(events: seq<Import.Event>, tags: seq<Enumerator>, locations: seq<Enumerator>) {
    forall e :: e in events && e.SymbolRead? ==> SymbolFits(e.d, tags, locations)
  }

  lemma {:induction false} RowFitsEverywhere(members: seq<Member>, row: Row)
    requires |row| == |members|
    ensures RowFits(members, row) <==> forall i :: 0 <= i < |row| ==> Fits(members[i].ty, row[i])
    decreases |row|
  {
    if row != [] {
      RowFitsEverywhere(members[1..], row[1..]);
      assert forall i :: 0 < i < |row| ==> members[i] == members[1..][i - 1] && row[i] == row[1..][i - 1];
      assert forall i :: 0 <= i < |row| - 1 ==> members[1..][i] == members[i + 1] && row[1..][i] == row[i + 1];
    }
  }

  lemma {:induction false} RowsFitEverywhere(members: seq<Member>, rows: seq<Row>)
    requires Aligned(rows, members)
    ensures RowsFit(members, rows) <==> forall row :: row in rows ==> RowFits(members, row)
  {
    if rows != [] {
      RowsFitEverywhere(members, rows[1..]);
      assert rows[0] in rows && forall row :: row in rows <==> row == rows[0] || row in rows[1..];
    }
  }

  lemma {:induction false} SymbolRowFits(
      members: seq<Member>, tags: seq<Enumerator>, locations: seq<Enumerator>, s: Import.SymbolRow)
    requires IsSymbolList(members, tags, locations)
    ensures RowFits(members, RowOf(s)) <==>
      |s.name| <= MAX_VARCHAR && Listed(tags, s.tag) && Listed(locations, s.location)
  {
    RowFitsEverywhere(members, RowOf(s));
    var row := RowOf(s);
    assert Fits(members[0].ty, row[0]) <==> |s.name| <= MAX_VARCHAR;
    assert Fits(members[5].ty, row[5]) <==> Listed(tags, s.tag);
    assert Fits(members[6].ty, row[6]) <==> Listed(locations, s.location);
  }

  lemma {:induction false} SymbolRowHasType(
      members: seq<Member>, tags: seq<Enumerator>, locations: seq<Enumerator>, s: Import.SymbolRow)
    requires IsSymbolList(members, tags, locations)
    ensures RowHasType(RowOf(s), members)
  {
  }

  lemma {:induction false} SymbolRowsFit(
      members: seq<Member>, tags: seq<Enumerator>, locations: seq<Enumerator>, events: seq<Import.Event>)
    requires IsSymbolList(members, tags, locations)
    ensures (forall s :: s in ImportRuns.SymbolRows(events) ==> RowFits(members, RowOf(s)))
       <==> SymbolsFit(events, tags, locations)
  {
    if events == [] {
      SymbolRowFits(members, tags, locations, Import.SENTINEL);
    } else {
      var front, e := ImportRuns.Front(events), ImportRuns.Last(events);
      SymbolRowsFit(members, tags, locations, front);
      assert events == front + [e] && forall x :: x in events <==> x in front || x == e;
      var before := ImportRuns.SymbolRows(front);
      if e.SymbolRead? {
        var s := Import.SymbolRowOf(e.d);
        SymbolRowFits(members, tags, locations, s);
        assert forall x :: x in before + [s] <==> x in before || x == s;
      } else {
        assert ImportRuns.SymbolRows(events) == before;
      }
    }
  }

  // --------------------------------------------------------------- transfer

  lemma {:induction false} SymbolListIsSpelled(
      members: seq<Member>, tags: seq<Enumerator>, locations: seq<Enumerator>)
    requires IsSymbolList(members, tags, locations)
    ensures Spelled(members) && DistinctSpellings(members)
  {
    forall m | m in members
      ensures NamesAreNames(m.ty) && (m.ty.Enumeration? ==> DistinctNames(m.ty.enumerators))
    {
      var i :| 0 <= i < 7 && members[i] == m;
    }
  }

  lemma {:induction false} SymbolRowsHaveType(
      members: seq<Member>, tags: seq<Enumerator>, locations: seq<Enumerator>, symbols: seq<Import.SymbolRow>)
    requires IsSymbolList(members, tags, locations)
    ensures RowsHaveType(RowsOf(symbols), members)
  {
    var rows := RowsOf(symbols);
    forall row | row in rows
      ensures RowHasType(row, members)
    {
      var i :| 0 <= i < |rows| && rows[i] == row;
      SymbolRowHasType(members, tags, locations, symbols[i]);
    }
  }

  lemma {:induction false} RowsOfSymbolsFit(members: seq<Member>, symbols: seq<Import.SymbolRow>)
    requires Aligned(RowsOf(symbols), members)
    ensures (forall s :: s in symbols ==> |RowOf(s)| == |members|)
    ensures RowsFit(members, RowsOf(symbols)) <==> forall s :: s in symbols ==> RowFits(members, RowOf(s))
  {
    var rows := RowsOf(symbols);
    RowsFitEverywhere(members, rows);
    assert forall row :: row in rows ==> exists i :: 0 <= i < |symbols| && row == RowOf(symbols[i]);
    forall s | s in symbols
      ensures RowOf(s) in rows
    {
      var i :| 0 <= i < |symbols| && symbols[i] == s;
      assert rows[i] == RowOf(s);
    }
  }

  lemma {:induction false} SymbolsAreKeys(symbols: seq<Import.SymbolRow>)
    ensures forall row :: row in RowsOf(symbols) ==> |row| == 7
    ensures KeysDiffer(Some(1), RowsOf(symbols)) <==> SymbolsDiffer(symbols)
  {
    var rows := RowsOf(symbols);
    assert forall i :: 0 <= i < |rows| ==> rows[i][1] == Number(symbols[i].symbol);
  }

  /** What makes the symbol rows fit their table. */
  lemma {:induction false} SymbolsFitTheirTable(
      members: seq<Member>, tags: seq<Enumerator>, locations: seq<Enumerator>, events: seq<Import.Event>)
    requires IsSymbolList(members, tags, locations) && ImportRuns.Run(events).Some?
    ensures var rows := RowsOf(ImportRuns.Run(events).value.symbol);
      && RowsHaveType(rows, members) && KeyOf(members) == Some(1)
      && (RowsFit(members, rows) && KeysDiffer(Some(1), rows) <==>
            IdsAreKeys(events) && SymbolsFit(events, tags, locations))
  {
    var symbols := ImportRuns.SymbolRows(events);
    ImportRuns.SymbolsAreQuery(events);
    SymbolRowsHaveType(members, tags, locations, symbols);
    KeyIsSymbol(members, tags, locations);
    RowsOfSymbolsFit(members, symbols);
    SymbolsAreKeys(symbols);
    KeysAreIds(events);
    SymbolRowsFit(members, tags, locations, events);
  }

  lemma {:induction false} ColumnsDiffer(members: seq<Member>)
    requires forall i, j :: 0 <= i < j < |members| ==> !SameName(ColumnName(members[i]), ColumnName(members[j]))
    ensures DistinctNamesOf(members)
  {
    if members != [] {
      var rest := members[1..];
      assert forall i :: 0 <= i < |rest| ==> rest[i] == members[i + 1];
      ColumnsDiffer(rest);
      forall m | m in rest
        ensures !SameName(ColumnName(m), ColumnName(members[0]))
      {
        var j :| 0 <= j < |rest| && rest[j] == m;
        assert m == members[j + 1];
      }
    }
  }

  lemma {:induction false} NamesDiffer(a: string, b: string)
    requires |a| != |b| || (a != "" && Lower(a[0]) != Lower(b[0]))
    ensures !SameName(a, b)
  {
    FoldedLength(a);
    FoldedLength(b);
    assert |a| == |b| ==> Folded(a)[0] == Lower(a[0]) && Folded(b)[0] == Lower(b[0]);
  }

  /** The lengths of the seven names, and the two pairs that agree on theirs. */
  predicate NamesAreApart(members: seq<Member>) {
    && |members| == 7
    && |members[0].name| == 4 && |members[1].name| == 6 && |members[2].name| == 21 && |members[3].name| == 13
    && |members[4].name| == 4 && |members[5].name| == 3 && |members[6].name| == 13
    && Lower(members[0].name[0]) != Lower(members[4].name[0])
    && Lower(members[3].name[0]) != Lower(members[6].name[0])
  }

  lemma {:induction false} ApartAreDistinct(members: seq<Member>)
    requires NamesAreApart(members) && forall m :: m in members ==> !m.ty.Address?
    ensures DistinctNamesOf(members)
  {
    forall i, j | 0 <= i < j < |members|
      ensures !SameName(ColumnName(members[i]), ColumnName(members[j]))
    {
      assert members[i] in members && members[j] in members;
      NamesDiffer(members[i].name, members[j].name);
    }
    ColumnsDiffer(members);
  }

  /** The server makes the table of the symbols. */
  lemma {:induction false} SymbolsAreCreatable(
      members: seq<Member>, tags: seq<Enumerator>, locations: seq<Enumerator>)
    requires IsSymbolList(members, tags, locations)
    ensures Creatable(members)
  {
    ApartAreDistinct(members);
    OnePrimary(members, 1);
  }

  lemma {:induction false} OnePrimary(members: seq<Member>, k: nat)
    requires forall i :: 0 <= i < |members| && i != k ==> members[i].key.NotKey?
    requires k < |members| ==> !members[k].ty.Characters?
    ensures |PrimariesOf(members)| <= (if k < |members| then 1 else 0) && NoPrimaryString(members)
    decreases |members|
  {
    if members != [] {
      OnePrimary(members[1..], if k == 0 then |members| else k - 1);
    }
  }

  /**
   Every import: the rows of `symbols` come back from the server, all of them and in order, exactly when the ids read
   are distinct and not 0, every name has at most 2047 characters, and every tag and location type, cut to eight bits,
   is listed.
   */
  lemma {:induction false} SymbolsArrive(
      members: seq<Member>, tags: seq<Enumerator>, locations: seq<Enumerator>, events: seq<Import.Event>)
    requires IsSymbolList(members, tags, locations) && ImportRuns.Run(events).Some?
    ensures var rows := RowsOf(ImportRuns.Run(events).value.symbol);
      RowsHaveType(rows, members)
      && (RowsValue(members, LoadedRows(members, rows)) == Some(rows) <==>
            IdsAreKeys(events) && SymbolsFit(events, tags, locations))
  {
    SymbolListIsSpelled(members, tags, locations);
    SymbolsFitTheirTable(members, tags, locations, events);
    TableRebuilt(members, RowsOf(ImportRuns.Run(events).value.symbol));
  }

  /** A symbol with the id 0 of the sentinel does not arrive. */
  lemma {:induction false} IdZeroIsLost(
      members: seq<Member>, tags: seq<Enumerator>, locations: seq<Enumerator>, d: Import.DiaSymbol)
    requires IsSymbolList(members, tags, locations) && d.id == 0
    requires ImportRuns.Run([Import.SymbolRead(d)]).Some?
    ensures var rows := RowsOf(ImportRuns.Run([Import.SymbolRead(d)]).value.symbol);
      RowsHaveType(rows, members) && RowsValue(members, LoadedRows(members, rows)) != Some(rows)
  {
    var events := [Import.SymbolRead(d)];
    SymbolsArrive(members, tags, locations, events);
    assert events[0].SymbolRead? && events[0].d.id == 0;
  }

  /**
   From end to end: what the import read is uploaded among other tables, and no command failed. Then the table of the
   symbols holds what was read exactly under the conditions of `SymbolsArrive`.
   */
  lemma {:induction false} ImportReachesServer(
      db: Database, files: map<string, string>, procedures: set<string>, faults: set<nat>,
      tempdir: string, scripts: seq<string>, exports: seq<Export>, k: nat,
      tags: seq<Enumerator>, locations: seq<Enumerator>, events: seq<Import.Event>)
    requires AllReadable(exports) && DistinctTables(exports) && DirectoryIsKnown(files, tempdir, exports)
    requires k < |exports| && IsSymbolList(exports[k].table.members, tags, locations)
    requires ImportRuns.Run(events).Some? && exports[k].rows == RowsOf(ImportRuns.Run(events).value.symbol)
    ensures AllExportable(exports)
    ensures var world := World(FilesAfter(files, tempdir, exports), procedures);
      var r := Run(db, world, faults, ScriptCommands(scripts) + AllCommands(tempdir, exports), 0);
      var name, members, rows := exports[k].table.name, exports[k].table.members, exports[k].rows;
      !r.failed ==>
        && name in r.db
        && (RowsValue(members, r.db[name].rows) == Some(rows) <==>
              IdsAreKeys(events) && SymbolsFit(events, tags, locations))
  {
    var members := exports[k].table.members;
    SymbolListIsSpelled(members, tags, locations);
    SymbolsFitTheirTable(members, tags, locations, events);
    UploadRebuildsTables(db, files, procedures, faults, tempdir, scripts, exports, k);
  }

  // ---------------------------------------------------------------- columns

  /** What was read from a symbol, in the order of the columns of its table. */
  function CellsOf(d: Import.DiaSymbol, tags: seq<Enumerator>, locations: seq<Enumerator>): (cells: seq<Cell>)
    ensures |cells| == 7
  {
    [ TextCell(if |d.name| <= MAX_VARCHAR then d.name else d.name[..MAX_VARCHAR]),
      IntegerCell(d.id),
      IntegerCell(d.lexicalParent),
      IntegerCell(d.classParent),
      IntegerCell(d.size),
      LabelCell(EnumeratorName(tags, d.tag % 0x100)),
      LabelCell(EnumeratorName(locations, d.location % 0x100)) ]
  }

  /** The cell of a row under a column. */
  function CellUnder(columns: seq<ColumnDef>, row: seq<Cell>, name: string): Option<Cell> {
    var i := IndexOf(columns, name);
    if i < |row| then Some(row[i]) else None
  }

  /** Under the name of each member of the list stands the value of the symbol that belongs there. */
  predicate HoldsSymbol(columns: seq<ColumnDef>, row: seq<Cell>, members: seq<Member>, cells: seq<Cell>)
    requires |cells| == |members|
  {
    forall c :: 0 <= c < |members| ==> CellUnder(columns, row, members[c].name) == Some(cells[c])
  }

  lemma {:induction false} ColumnOfMember(members: seq<Member>, i: nat)
    requires i < |members| && DistinctNamesOf(members)
    ensures IndexOf(DefsOf(members), ColumnName(members[i])) == i
    decreases i
  {
    if i > 0 {
      assert members[i] == members[1..][i - 1] && members[i] in members[1..];
      ColumnOfMember(members[1..], i - 1);
    }
  }

  lemma {:induction false} RowHoldsCells(members: seq<Member>, cells: seq<Cell>)
    requires |cells| == |members| && DistinctNamesOf(members) && forall m :: m in members ==> !m.ty.Address?
    ensures HoldsSymbol(DefsOf(members), cells, members, cells)
  {
    forall c | 0 <= c < |members|
      ensures CellUnder(DefsOf(members), cells, members[c].name) == Some(cells[c])
    {
      assert members[c] in members;
      ColumnOfMember(members, c);
    }
  }

  function CellsOfRow(s: Import.SymbolRow, tags: seq<Enumerator>, locations: seq<Enumerator>): (cells: seq<Cell>)
    ensures |cells| == 7
  {
    [ TextCell(if |s.name| <= MAX_VARCHAR then s.name else s.name[..MAX_VARCHAR]),
      IntegerCell(s.symbol), IntegerCell(s.lexicalParent), IntegerCell(s.parent), IntegerCell(s.size),
      LabelCell(EnumeratorName(tags, s.tag)), LabelCell(EnumeratorName(locations, s.location)) ]
  }

  lemma {:induction false} StoredSymbol(
      members: seq<Member>, tags: seq<Enumerator>, locations: seq<Enumerator>, s: Import.SymbolRow)
    requires IsSymbolList(members, tags, locations)
    ensures StoredRow(members, RowOf(s)) == CellsOfRow(s, tags, locations)
  {
    var row, cells := RowOf(s), CellsOfRow(s, tags, locations);
    forall i: nat | i < 7
      ensures StoredRow(members, row)[i] == cells[i]
    {
      StoredAt(members, row, i);
      assert StoredCell(members[i].ty, row[i]) == cells[i];
    }
  }

  lemma {:induction false} SymbolKeyStored(
      members: seq<Member>, tags: seq<Enumerator>, locations: seq<Enumerator>, symbols: seq<Import.SymbolRow>, i: nat)
    requires IsSymbolList(members, tags, locations) && Aligned(RowsOf(symbols), members) && i < |symbols|
    ensures |StoredRows(members, RowsOf(symbols))[i]| == 7
    ensures StoredRows(members, RowsOf(symbols))[i][1] == IntegerCell(symbols[i].symbol)
  {
    var row := RowOf(symbols[i]);
    StoredRowAt(members, RowsOf(symbols), i);
    StoredAt(members, row, 1);
    assert StoredCell(members[1].ty, row[1]) == IntegerCell(symbols[i].symbol);
  }

  lemma {:induction false} SymbolKeysAreFresh(
      members: seq<Member>, tags: seq<Enumerator>, locations: seq<Enumerator>, symbols: seq<Import.SymbolRow>)
    requires IsSymbolList(members, tags, locations) && SymbolsDiffer(symbols) && Aligned(RowsOf(symbols), members)
    ensures Fresh(Some(1), [], StoredRows(members, RowsOf(symbols)))
  {
    var stored := StoredRows(members, RowsOf(symbols));
    forall i: nat, j: nat | i < j < |stored|
      ensures !Clash(1, stored, i, j)
    {
      SymbolKeyStored(members, tags, locations, symbols, i);
      SymbolKeyStored(members, tags, locations, symbols, j);
    }
    FreshWithoutClash(1, stored);
  }

  /** Rows with distinct ids are loaded as they are stored. */
  lemma {:induction false} DistinctAreLoaded(
      members: seq<Member>, tags: seq<Enumerator>, locations: seq<Enumerator>, symbols: seq<Import.SymbolRow>)
    requires IsSymbolList(members, tags, locations) && SymbolsDiffer(symbols)
    ensures Aligned(RowsOf(symbols), members)
    ensures LoadedRows(members, RowsOf(symbols)) == StoredRows(members, RowsOf(symbols))
  {
    var rows := RowsOf(symbols);
    SymbolRowsHaveType(members, tags, locations, symbols);
    KeyIsSymbol(members, tags, locations);
    SymbolKeysAreFresh(members, tags, locations, symbols);
    InsertKeepsAll(Some(1), [], StoredRows(members, rows));
    assert [] + StoredRows(members, rows) == StoredRows(members, rows);
  }

  lemma {:induction false} IdsMakeKeys(events: seq<Import.Event>, st: Import.State)
    requires ImportRuns.Run(events) == Some(st) && IdsAreKeys(events)
    ensures SymbolsDiffer(st.symbol)
  {
    KeysAreIds(events);
    ImportRuns.SymbolsAreQuery(events);
  }

  lemma {:induction false} LoadedSymbol(
      members: seq<Member>, tags: seq<Enumerator>, locations: seq<Enumerator>, symbols: seq<Import.SymbolRow>, k: nat)
    requires IsSymbolList(members, tags, locations) && SymbolsDiffer(symbols) && k < |symbols|
    ensures Aligned(RowsOf(symbols), members) && k < |LoadedRows(members, RowsOf(symbols))|
    ensures LoadedRows(members, RowsOf(symbols))[k] == CellsOfRow(symbols[k], tags, locations)
  {
    DistinctAreLoaded(members, tags, locations, symbols);
    StoredRowAt(members, RowsOf(symbols), k);
    StoredSymbol(members, tags, locations, symbols[k]);
  }

  lemma {:induction false} CellsAsRead(
      events: seq<Import.Event>, st: Import.State, i: nat, d: Import.DiaSymbol,
      tags: seq<Enumerator>, locations: seq<Enumerator>)
    requires ImportRuns.Run(events) == Some(st) && i < |events| && events[i] == Import.SymbolRead(d)
    ensures var k := 1 + ImportRuns.SymbolsRead(events[..i]);
      k < |st.symbol| && CellsOfRow(st.symbol[k], tags, locations) == CellsOf(d, tags, locations)
  {
    ImportRuns.SymbolRowAt(events, i);
  }

  lemma {:induction false} CellsAreNamed(
      members: seq<Member>, tags: seq<Enumerator>, locations: seq<Enumerator>, cells: seq<Cell>)
    requires IsSymbolList(members, tags, locations) && |cells| == 7
    ensures HoldsSymbol(DefsOf(members), cells, members, cells)
  {
    SymbolsAreCreatable(members, tags, locations);
    RowHoldsCells(members, cells);
  }

  lemma {:induction false} LoadedHoldsCells(
      members: seq<Member>, tags: seq<Enumerator>, locations: seq<Enumerator>,
      symbols: seq<Import.SymbolRow>, k: nat, cells: seq<Cell>)
    requires IsSymbolList(members, tags, locations) && SymbolsDiffer(symbols)
    requires k < |symbols| && CellsOfRow(symbols[k], tags, locations) == cells
    ensures Aligned(RowsOf(symbols), members) && k < |LoadedRows(members, RowsOf(symbols))|
    ensures HoldsSymbol(DefsOf(members), LoadedRows(members, RowsOf(symbols))[k], members, cells)
  {
    LoadedSymbol(members, tags, locations, symbols, k);
    CellsAreNamed(members, tags, locations, cells);
  }

  /**
   When the ids are keys, the table that is loaded holds each symbol that was read, in the row behind those of the
   symbols read before, with each of its values under the name of the column that it belongs to.
   */
  lemma {:induction false} LoadedHoldsSymbol(
      members: seq<Member>, tags: seq<Enumerator>, locations: seq<Enumerator>,
      events: seq<Import.Event>, st: Import.State, i: nat, d: Import.DiaSymbol)
    requires IsSymbolList(members, tags, locations) && IdsAreKeys(events) && ImportRuns.Run(events) == Some(st)
    requires i < |events| && events[i] == Import.SymbolRead(d)
    ensures var rows, k := RowsOf(st.symbol), 1 + ImportRuns.SymbolsRead(events[..i]);
      && Aligned(rows, members) && k < |LoadedRows(members, rows)|
      && HoldsSymbol(DefsOf(members), LoadedRows(members, rows)[k], members, CellsOf(d, tags, locations))
  {
    var k, cells := 1 + ImportRuns.SymbolsRead(events[..i]), CellsOf(d, tags, locations);
    IdsMakeKeys(events, st);
    CellsAsRead(events, st, i, d, tags, locations);
    LoadedHoldsCells(members, tags, locations, st.symbol, k, cells);
  }

  /** And so does the table on the server, after an upload in which no command failed. */
  lemma {:induction false} ServerHoldsSymbol(
      db: Database, files: map<string, string>, procedures: set<string>, faults: set<nat>,
      tempdir: string, scripts: seq<string>, exports: seq<Export>, n: nat,
      tags: seq<Enumerator>, locations: seq<Enumerator>,
      events: seq<Import.Event>, st: Import.State, i: nat, d: Import.DiaSymbol)
    requires AllReadable(exports) && DistinctTables(exports) && DirectoryIsKnown(files, tempdir, exports)
    requires n < |exports| && IsSymbolList(exports[n].table.members, tags, locations)
    requires ImportRuns.Run(events) == Some(st) && exports[n].rows == RowsOf(st.symbol)
    requires IdsAreKeys(events) && i < |events| && events[i] == Import.SymbolRead(d)
    ensures AllExportable(exports)
    ensures var world := World(FilesAfter(files, tempdir, exports), procedures);
      var r := Run(db, world, faults, ScriptCommands(scripts) + AllCommands(tempdir, exports), 0);
      var name, members, k := exports[n].table.name, exports[n].table.members, 1 + ImportRuns.SymbolsRead(events[..i]);
      !r.failed ==>
        && name in r.db && k < |r.db[name].rows|
        && HoldsSymbol(r.db[name].columns, r.db[name].rows[k], members, CellsOf(d, tags, locations))
  {
    UploadIsSafe(db, files, procedures, faults, tempdir, scripts, exports);
    CommandCount(tempdir, exports);
    LoadedHoldsSymbol(exports[n].table.members, tags, locations, events, st, i, d);
    var world, before := World(FilesAfter(files, tempdir, exports), procedures), ScriptCommands(scripts);
    var r := Run(db, world, faults, before + AllCommands(tempdir, exports), 0);
    if !r.failed {
      LoadedAt(r, |before|, exports, n);
    }
  }
}
