/**
 The export as a whole: struct lists and rows in, tables of the server out, through the generated data files and
 the generated commands, over every run of the upload loop.
 */
module UploadSafety {
  import opened StringUtils
  import opened Reflection
  import opened SqlLiterals
  import opened SqlParser
  import opened LoadDialect
  import opened CsvWriter
  import opened CsvRoundTrip
  import opened SchemaRoundTrip
  import opened CreateRoundTrip
  import opened LoadRoundTrip
  import opened Server
  import opened TableRoundTrip
  import opened Upload

  // ----------------------------------------------------------------- paths

  predicate EndsInSlash(path: string) {
    path != "" && IsSlash(path[|path| - 1])
  }

  lemma {:induction false} NormalAppend(a: string, b: string, afterSlash: bool)
    ensures Normal(a + b, afterSlash)
         == Normal(a, afterSlash) + Normal(b, if a == "" then afterSlash else EndsInSlash(a))
  {
    if a == "" {
      assert a + b == b && Normal(a, afterSlash) + Normal(b, afterSlash) == Normal(b, afterSlash);
    } else {
      var head := if !IsSlash(a[0]) then [a[0]] else if afterSlash then "" else "\\";
      assert (a + b)[1..] == a[1..] + b;
      NormalAppend(a[1..], b, IsSlash(a[0]));
      assert (if a[1..] == "" then IsSlash(a[0]) else EndsInSlash(a[1..])) == EndsInSlash(a);
      assert Normal(a, afterSlash) == head + Normal(a[1..], IsSlash(a[0]));
      Reassociate(head, Normal(a[1..], IsSlash(a[0])), Normal(b, EndsInSlash(a)));
    }
  }

  lemma {:induction false} NormalOfPlain(s: string, afterSlash: bool)
    requires s == "" || !IsSlash(s[0])
    ensures Normal(s, afterSlash) == Normal(s, false)
  {
  }

  /** Normalising keeps names of plain characters as they are. */
  lemma {:induction false} NormalOfName(s: string, afterSlash: bool)
    requires forall c :: c in s ==> !IsSlash(c)
    ensures Normal(s, afterSlash) == s
  {
    if s != "" {
      assert s[0] in s && forall c :: c in s[1..] ==> c in s;
      NormalOfName(s[1..], false);
      assert s == [s[0]] + s[1..];
    }
  }

  /** What comes behind a path that is long enough to tell whether it begins with two slashes. */
  lemma {:induction false} NamedAppend(dir: string, x: string)
    requires |dir| >= 2 || (x != "" && !IsSlash(x[0]))
    ensures FileNamed(dir + x) == FileNamed(dir) + Normal(x, EndsInSlash(dir))
  {
    if |dir| >= 2 && IsSlash(dir[0]) && IsSlash(dir[1]) {
      assert (dir + x)[2..] == dir[2..] + x;
      NormalAppend(dir[2..], x, true);
      assert EndsInSlash(dir) == if dir[2..] == "" then true else EndsInSlash(dir[2..]);
      Reassociate("\\\\", Normal(dir[2..], true), Normal(x, EndsInSlash(dir)));
    } else {
      NormalAppend(dir, x, false);
    }
  }

  /** The path in the LOAD DATA command has one more backslash than the path that was written to. */
  function LoadPath(tempdir: string, name: string): string {
    tempdir + "\\" + name + "_values.txt"
  }

  /**
   The LOAD DATA command finds the file that `PopulateTable` wrote exactly when `-tempdir` ends in a slash and is more
   than a single one: only one of the two adds a separator, and behind a lone slash that one makes a network path.
   */
  lemma {:induction false} LoadFindsTheFile(tempdir: string, name: string)
    requires IsName(name)
    ensures FileNamed(LoadPath(tempdir, name)) == FileNamed(WritePath(tempdir, name))
       <==> EndsInSlash(tempdir) && |tempdir| > 1
  {
    var file := name + "_values.txt";
    assert file[0] in name;
    assert FileNamed(WritePath(tempdir, name)) == FileNamed(tempdir) + Normal(file, false) by {
      assert WritePath(tempdir, name) == tempdir + file;
      NamedAppend(tempdir, file);
      NormalOfPlain(file, EndsInSlash(tempdir));
    }
    assert LoadPath(tempdir, name) == tempdir + ("\\" + file) by {
      Reassociate("\\", name, "_values.txt");
      Reassociate(tempdir, "\\", file);
    }
    if |tempdir| >= 2 {
      SeparatorCounts(tempdir, file);
    } else {
      ShortDirectory(tempdir, file);
    }
  }

  /** Neither in a directory without a slash at its end nor in one that is a lone slash does the LOAD find its file. */
  lemma {:induction false} DirectoriesThatMiss(name: string)
    requires IsName(name)
    ensures FileNamed(LoadPath("C:\\tmp", name)) != FileNamed(WritePath("C:\\tmp", name))
    ensures FileNamed(LoadPath("\\", name)) != FileNamed(WritePath("\\", name))
  {
    LoadFindsTheFile("C:\\tmp", name);
    LoadFindsTheFile("\\", name);
  }

  lemma {:induction false} SeparatorCounts(dir: string, file: string)
    requires |dir| >= 2 && file != "" && !IsSlash(file[0])
    ensures FileNamed(dir + ("\\" + file))
         == FileNamed(dir) + (if EndsInSlash(dir) then "" else "\\") + Normal(file, false)
  {
    NamedAppend(dir, "\\" + file);
    assert ("\\" + file)[1..] == file;
    NormalOfPlain(file, true);
    Reassociate(FileNamed(dir), "\\", Normal(file, false));
  }

  lemma {:induction false} ShortDirectory(dir: string, file: string)
    requires |dir| < 2 && file != "" && !IsSlash(file[0])
    ensures |FileNamed(dir + ("\\" + file))| == 1 + |FileNamed(dir)| + |Normal(file, false)|
  {
    var path := dir + ("\\" + file);
    NormalOfPlain(file, true);
    assert ("\\" + file)[1..] == file;
    if dir != "" && IsSlash(dir[0]) {
      assert path[2..] == file && dir[1..] == "";
    } else {
      NormalAppend(dir, "\\" + file, false);
    }
  }

  lemma {:induction false} FilesDiffer(tempdir: string, a: string, b: string)
    requires IsName(a) && IsName(b) && a != b
    ensures FileNamed(WritePath(tempdir, a)) != FileNamed(WritePath(tempdir, b))
  {
    var x, y := a + "_values.txt", b + "_values.txt";
    assert WritePath(tempdir, a) == tempdir + x && WritePath(tempdir, b) == tempdir + y;
    assert x[0] in a && y[0] in b;
    NamedAppend(tempdir, x);
    NamedAppend(tempdir, y);
    NormalOfName(x, EndsInSlash(tempdir));
    NormalOfName(y, EndsInSlash(tempdir));
    assert x[..|x| - 11] == a && y[..|y| - 11] == b;
    var head := FileNamed(tempdir);
    assert (head + x)[|head|..] == x && (head + y)[|head|..] == y;
  }

  lemma {:induction false} SuffixDecodes(name: string)
    requires IsName(name)
    ensures Decoded("\\\\" + name + "_values.txt") == Some("\\" + name + "_values.txt")
  {
    var file := name + "_values.txt";
    PlainTextDecodes(file);
    var raw := "\\\\" + name + "_values.txt" + "'";
    assert raw[2..] == file + "'";
    assert "\\" + file == "\\" + name + "_values.txt";
  }

  lemma {:induction false} PlainTextDecodes(s: string)
    requires forall c :: c in s ==> c != '\\' && c != '\''
    ensures ReadString(s + "'") == Some((s, ""))
  {
    assert '\\' !in s && '\'' !in s;
    assert ReadString("'") == Some(("", "")) by { assert "'"[1..] == ""; }
    ReadPlainText(s, "'");
    assert s + "" == s;
  }

  /** The escaped directory in the command is read back, unless the directory holds a quote. */
  lemma {:induction false} DirectoryDecodes(tempdir: string, name: string)
    requires IsName(name)
    ensures Decoded(EscapedDirectory(tempdir) + name + "_values.txt") == Some(LoadPath(tempdir, name))
       <==> '\'' !in tempdir
  {
    var raw, more := "\\\\" + name + "_values.txt", "\\" + name + "_values.txt";
    SuffixDecodes(name);
    PathSurvives(tempdir, raw, more);
    assert EscapedDirectory(tempdir) + name + "_values.txt" == ReplaceAll(tempdir, "\\", "\\\\") + raw;
    assert LoadPath(tempdir, name) == tempdir + more;
  }

  // ------------------------------------------------------------- one table

  /** What the commands of a table need in order to be read as they are meant; the server may still refuse them. */
  predicate ReadableTable(t: Struct) {
    IsName(t.name) && KeepsItsQuotes(t.desc) && t.members != [] && AllPresentable(t.members)
  }

  predicate Readable(e: Export) {
    ReadableTable(e.table) && RowsHaveType(e.rows, e.table.members)
  }

  lemma {:induction false} PresentableIsNamed(members: seq<Member>)
    requires AllPresentable(members)
    ensures AllNamed(members)
  {
    if members != [] {
      PresentableIsNamed(members[1..]);
    }
  }

  lemma {:induction false} PresentableIsSpelled(members: seq<Member>)
    requires AllPresentable(members)
    ensures Spelled(members)
  {
    if members != [] {
      PresentableIsSpelled(members[1..]);
      assert forall m :: m in members ==> m == members[0] || m in members[1..];
    }
  }

  /** The table as the server should end up with it. */
  function LoadedTable(e: Export): Table
    requires Readable(e)
  {
    var members := e.table.members;
    Table(DefsOf(members), if PrimariesOf(members) == [] then None else Some(PrimariesOf(members)[0]),
          LoadedRows(members, e.rows))
  }

  /** The data file of the table is where `PopulateTable` put it. */
  predicate FileIsThere(files: map<string, string>, tempdir: string, e: Export)
    requires Exportable(e)
  {
    var file := FileNamed(WritePath(tempdir, e.table.name));
    file in files && files[file] == FileText(e.table.members, e.rows, true, ',')
  }

  predicate UsableDirectory(tempdir: string) {
    EndsInSlash(tempdir) && |tempdir| > 1
  }

  /** In a usable directory the LOAD finds the file of the table, and in another one it finds none. */
  predicate FileIsKnown(files: map<string, string>, tempdir: string, e: Export)
    requires Exportable(e)
  {
    if UsableDirectory(tempdir) then FileIsThere(files, tempdir, e)
    else FileNamed(LoadPath(tempdir, e.table.name)) !in files
  }

  lemma {:induction false} DropWorks(db: Database, world: World, name: string)
    requires IsName(name)
    ensures Execute(db, world, DropCommand(name)) == Some(db - {name})
  {
    ParseDropBack(name);
  }

  lemma {:induction false} CreateWorks(db: Database, world: World, e: Export)
    requires Readable(e) && e.table.name !in db
    ensures Execute(db, world, CreateText(e.table.name, e.table.desc, e.table.members))
         == if Creatable(e.table.members) then Some(db[e.table.name := LoadedTable(e).(rows := [])]) else None
  {
    ParseCreateBack(e.table.name, e.table.desc, e.table.members);
    TableIsCreated(e.table.members);
  }

  /**
   The server takes the CREATE TABLE command exactly when column names differ, at most one primary key is asked for, and
   that one not on a string.
   */
  lemma {:induction false} CreateWorksExactly(db: Database, world: World, table: Struct)
    requires ReadableTable(table) && table.name !in db
    ensures Execute(db, world, CreateText(table.name, table.desc, table.members)).Some?
       <==> Creatable(table.members)
  {
    ParseCreateBack(table.name, table.desc, table.members);
    TableIsCreated(table.members);
  }

  /** Distinct members do not suffice: an `address_info` and a number can ask for the same column. */
  lemma {:induction false} AddressMayCollide(desc: string)
    ensures var members := [Member("a", Address, NotKey, desc), Member("a_rv", UInt32, NotKey, desc)];
      members[0].name != members[1].name && !DistinctNamesOf(members)
  {
    var members := [Member("a", Address, NotKey, desc), Member("a_rv", UInt32, NotKey, desc)];
    assert "a" + "_" + "rv" == "a_rv";
    assert members[1..] == [members[1]] && members[1] in members[1..];
    assert Named(members[1..], ColumnName(members[0]));
  }

  /** Nor do distinct spellings: the names of columns are compared without regard to case. */
  lemma {:induction false} CaseMayCollide(desc: string)
    ensures var members := [Member("tag", UInt32, NotKey, desc), Member("Tag", UInt32, NotKey, desc)];
      members[0].name != members[1].name && !DistinctNamesOf(members)
  {
    var members := [Member("tag", UInt32, NotKey, desc), Member("Tag", UInt32, NotKey, desc)];
    assert "tag"[0] == 't' && "Tag"[0] == 'T';
    assert "tag"[1..] == "ag" == "Tag"[1..];
    assert SameName("Tag", "tag");
    assert members[1..] == [members[1]] && members[1] in members[1..];
    assert Named(members[1..], ColumnName(members[0]));
  }

  lemma {:induction false} TargetsAreKnown(members: seq<Member>)
    ensures forall t :: t in TargetsOf(members) ==> KnowsTarget(DefsOf(members), t)
    ensures forall a :: a in AssignmentsOf(members) ==> IndexOf(DefsOf(members), a.column) < |members|
  {
    if members != [] {
      TargetsAreKnown(members[1..]);
      if members[0].ty.Boolean? {
        assert AssignmentsOf(members)[1..] == AssignmentsOf(members[1..]);
        assert ColumnName(members[0]) == members[0].name;
      } else {
        assert AssignmentsOf(members) == AssignmentsOf(members[1..]);
      }
    }
  }

  /** Reading the file through the generated load list and SET clause fills the new table with the exported rows. */
  lemma {:induction false} LoadFillsTable(e: Export, path: string)
    requires Readable(e) && Creatable(e.table.members)
    ensures LoadInto(LoadedTable(e).(rows := []), LoadStatement(path, e.table.name, e.table.members),
                     FileText(e.table.members, e.rows, true, ','))
         == Some(LoadedTable(e))
  {
    var members := e.table.members;
    PresentableIsSpelled(members);
    TargetsAreKnown(members);
    ReadRows(members, e.rows);
    LoadIsAccepted(LoadedTable(e).(rows := []), LoadStatement(path, e.table.name, members),
                   FileText(members, e.rows, true, ','), DataOfAll(members, e.rows, true));
  }

  lemma {:induction false} ReadRows(members: seq<Member>, rows: seq<Row>)
    requires members != [] && RowsHaveType(rows, members) && Spelled(members) && DistinctNamesOf(members)
    ensures ReadFile(FileText(members, rows, true, ','), ',') == Some(DataOfAll(members, rows, true))
    ensures RowsFrom(DefsOf(members), TargetsOf(members), AssignmentsOf(members), DataOfAll(members, rows, true))
         == StoredRows(members, rows)
  {
    assert SafeSeparator(',');
    ReadFileBack(members, rows, true, ',');
    RowsAreStored(members, rows);
  }

  /** What a LOAD does whose columns are known. */
  lemma {:induction false} LoadIsAccepted(table: Table, load: Statement, text: string, lines: seq<seq<Field>>)
    requires load.LoadData? && load.fieldsBy == "," && load.enclosedBy == "\"" && load.linesBy == "\n"
    requires forall t :: t in load.targets ==> KnowsTarget(table.columns, t)
    requires forall a :: a in load.assignments ==> IndexOf(table.columns, a.column) < |table.columns|
    requires ReadFile(text, ',') == Some(lines)
    ensures LoadInto(table, load, text)
         == Some(table.(rows := Insert(KeyIndex(table.columns, table.primary), table.rows,
                                       RowsFrom(table.columns, load.targets, load.assignments, lines))))
  {
  }

  lemma {:induction false} ExecuteLoad(
      db: Database, world: World, command: string, load: Statement, file: string, text: string, table: Table)
    requires load.LoadData? && Parse(command) == Some(load) && load.table in db && FileNamed(load.path) == file
    requires file in world.files ==> world.files[file] == text && LoadInto(db[load.table], load, text) == Some(table)
    ensures Execute(db, world, command) == if file in world.files then Some(db[load.table := table]) else None
  {
  }

  lemma {:induction false} LoadWorks(db: Database, world: World, tempdir: string, e: Export)
    requires Readable(e) && Creatable(e.table.members)
    requires '\'' !in tempdir && FileIsKnown(world.files, tempdir, e)
    requires e.table.name in db && db[e.table.name] == LoadedTable(e).(rows := [])
    ensures Execute(db, world, LoadCommand(EscapedDirectory(tempdir), e.table.name, EndClause(e.table.members)))
         == if UsableDirectory(tempdir) then Some(db[e.table.name := LoadedTable(e)]) else None
  {
    var path, members := LoadPath(tempdir, e.table.name), e.table.members;
    var command := LoadCommand(EscapedDirectory(tempdir), e.table.name, EndClause(members));
    var text := FileText(members, e.rows, true, ',');
    assert Parse(command) == Some(LoadStatement(path, e.table.name, members)) by {
      DirectoryDecodes(tempdir, e.table.name);
      PresentableIsNamed(members);
      ParseLoadBack(EscapedDirectory(tempdir), e.table.name, path, members);
    }
    assert LoadInto(db[e.table.name], LoadStatement(path, e.table.name, members), text) == Some(LoadedTable(e)) by {
      LoadFillsTable(e, path);
    }
    LoadFindsTheFile(tempdir, e.table.name);
    ExecuteLoad(db, world, command, LoadStatement(path, e.table.name, members), FileNamed(path), text, LoadedTable(e));
  }

  /**
   The triple of one table: whatever was there before, the table is dropped, made anew if the server can make it, and
   filled if the directory is usable.
   */
  lemma {:induction false} TripleWorks(db: Database, world: World, tempdir: string, e: Export)
    requires Readable(e) && '\'' !in tempdir && FileIsKnown(world.files, tempdir, e)
    ensures var commands := TableCommands(tempdir, e.table);
      var empty := LoadedTable(e).(rows := []);
      && Execute(db, world, commands[0]) == Some(db - {e.table.name})
      && Execute(db - {e.table.name}, world, commands[1])
         == (if Creatable(e.table.members) then Some((db - {e.table.name})[e.table.name := empty]) else None)
      && (Creatable(e.table.members) ==>
            Execute((db - {e.table.name})[e.table.name := empty], world, commands[2])
            == if UsableDirectory(tempdir) then Some(db[e.table.name := LoadedTable(e)]) else None)
  {
    var name, empty, loaded := e.table.name, LoadedTable(e).(rows := []), LoadedTable(e);
    var commands := TableCommands(tempdir, e.table);
    var created := (db - {name})[name := empty];
    assert Execute(db, world, commands[0]) == Some(db - {name}) by { DropWorks(db, world, name); }
    assert Execute(db - {name}, world, commands[1]) == if Creatable(e.table.members) then Some(created) else None by {
      CreateWorks(db - {name}, world, e);
    }
    if Creatable(e.table.members) {
      assert Execute(created, world, commands[2])
          == if UsableDirectory(tempdir) then Some(created[name := loaded]) else None by {
        LoadWorks(created, world, tempdir, e);
      }
      LastWriteWins(db, name, empty, loaded);
    }
  }

  lemma {:induction false} LastWriteWins<T>(m: map<string, T>, k: string, a: T, b: T)
    ensures (m - {k})[k := a][k := b] == m[k := b]
  {
  }

  // -------------------------------------------------------------- all runs

  predicate AllReadable(exports: seq<Export>) {
    exports == [] || (Readable(exports[0]) && AllReadable(exports[1..]))
  }

  predicate AllFilesThere(files: map<string, string>, tempdir: string, exports: seq<Export>)
    requires AllExportable(exports)
  {
    exports == [] || (FileIsThere(files, tempdir, exports[0]) && AllFilesThere(files, tempdir, exports[1..]))
  }

  predicate AllFilesKnown(files: map<string, string>, tempdir: string, exports: seq<Export>)
    requires AllExportable(exports)
  {
    exports == [] || (FileIsKnown(files, tempdir, exports[0]) && AllFilesKnown(files, tempdir, exports[1..]))
  }

  predicate TableNamed(exports: seq<Export>, name: string) {
    exists e :: e in exports && e.table.name == name
  }

  predicate DistinctTables(exports: seq<Export>) {
    exports == [] || (!TableNamed(exports[1..], exports[0].table.name) && DistinctTables(exports[1..]))
  }

  /** Commands that took effect: all that were sent, but for a failed last one. */
  function Applied(r: Outcome): int {
    if r.failed then r.issued - 1 else r.issued
  }

  lemma {:induction false} CommandCount(tempdir: string, exports: seq<Export>)
    ensures |AllCommands(tempdir, exports)| == 3 * |exports|
  {
    if exports != [] {
      CommandCount(tempdir, exports[1..]);
    }
  }

  /** What holds of the tables after a run that began its table commands at position i. */
  predicate TablesLoaded(r: Outcome, i: nat, exports: seq<Export>)
    requires AllReadable(exports)
    decreases |exports|
  {
    exports == [] ||
    (&& (i + 3 <= Applied(r) ==>
          exports[0].table.name in r.db && r.db[exports[0].table.name] == LoadedTable(exports[0]))
     && TablesLoaded(r, i + 3, exports[1..]))
  }

  /** Later commands leave other tables alone. */
  ghost predicate OthersKept(db: Database, after: Database, exports: seq<Export>) {
    forall name :: !TableNamed(exports, name) ==>
      (name in db <==> name in after) && (name in db ==> after[name] == db[name])
  }

  /** A run over the three commands of a table stops at a fault, or where the server refuses one. */
  lemma {:induction false} RunThree(
      db: Database, one: Database, two: Database, three: Database, created: bool, loaded: bool,
      world: World, faults: set<nat>, commands: seq<string>, i: nat)
    requires i + 3 <= |commands|
    requires Execute(db, world, commands[i]) == Some(one)
    requires Execute(one, world, commands[i + 1]) == if created then Some(two) else None
    requires created ==> Execute(two, world, commands[i + 2]) == if loaded then Some(three) else None
    ensures Run(db, world, faults, commands, i)
         == if i in faults then Outcome(db, i + 1, true)
            else if i + 1 in faults || !created then Outcome(one, i + 2, true)
            else if i + 2 in faults || !loaded then Outcome(two, i + 3, true)
            else Run(three, world, faults, commands, i + 3)
  {
    RunStep(db, world, faults, commands, i);
    RunStep(one, world, faults, commands, i + 1);
    RunStep(two, world, faults, commands, i + 2);
  }

  function Dropped(db: Database, e: Export): Database {
    db - {e.table.name}
  }

  function Emptied(db: Database, e: Export): Database
    requires Readable(e)
  {
    (db - {e.table.name})[e.table.name := LoadedTable(e).(rows := [])]
  }

  function Filled(db: Database, e: Export): Database
    requires Readable(e)
  {
    db[e.table.name := LoadedTable(e)]
  }

  /**
   What three commands do to any tables: drop the table of e, make it anew if the server can make it, and fill it if the
   directory is usable.
   */
  ghost predicate TripleDoes(world: World, triple: seq<string>, e: Export, usable: bool) {
    |triple| == 3 && Readable(e) &&
    forall db {:trigger Dropped(db, e)} ::
      && Execute(db, world, triple[0]) == Some(Dropped(db, e))
      && Execute(Dropped(db, e), world, triple[1])
         == (if Creatable(e.table.members) then Some(Emptied(db, e)) else None)
      && (Creatable(e.table.members) ==>
            Execute(Emptied(db, e), world, triple[2]) == if usable then Some(Filled(db, e)) else None)
  }

  ghost predicate AllDo(world: World, triples: seq<seq<string>>, exports: seq<Export>, usable: bool)
    decreases |triples|
  {
    |triples| == |exports| &&
    (triples == [] ||
      (TripleDoes(world, triples[0], exports[0], usable) && AllDo(world, triples[1..], exports[1..], usable)))
  }

  function Flat(triples: seq<seq<string>>): seq<string> {
    if triples == [] then [] else triples[0] + Flat(triples[1..])
  }

  function Triples(tempdir: string, exports: seq<Export>): seq<seq<string>> {
    if exports == [] then [] else [TableCommands(tempdir, exports[0].table)] + Triples(tempdir, exports[1..])
  }

  lemma {:induction false} GeneratedTriplesDo(world: World, tempdir: string, exports: seq<Export>)
    requires AllReadable(exports) && AllExportable(exports)
    requires '\'' !in tempdir && AllFilesKnown(world.files, tempdir, exports)
    ensures AllDo(world, Triples(tempdir, exports), exports, UsableDirectory(tempdir))
    ensures Flat(Triples(tempdir, exports)) == AllCommands(tempdir, exports)
    decreases |exports|
  {
    if exports != [] {
      GeneratedTriplesDo(world, tempdir, exports[1..]);
      GeneratedTripleDoes(world, tempdir, exports[0]);
    }
  }

  lemma {:induction false} GeneratedTripleDoes(world: World, tempdir: string, e: Export)
    requires Readable(e) && '\'' !in tempdir && FileIsKnown(world.files, tempdir, e)
    ensures TripleDoes(world, TableCommands(tempdir, e.table), e, UsableDirectory(tempdir))
  {
    var triple := TableCommands(tempdir, e.table);
    forall db: Database
      ensures Execute(db, world, triple[0]) == Some(Dropped(db, e))
      ensures Execute(Dropped(db, e), world, triple[1])
           == if Creatable(e.table.members) then Some(Emptied(db, e)) else None
      ensures Creatable(e.table.members) ==>
        Execute(Emptied(db, e), world, triple[2]) == if UsableDirectory(tempdir) then Some(Filled(db, e)) else None
    {
      TripleWorks(db, world, tempdir, e);
    }
  }

  /** The run over the first triple, given where it stands behind it. */
  predicate AfterTriple(
      db: Database, r: Outcome, behind: Outcome, faults: set<nat>, i: nat, e: Export, usable: bool)
    requires Readable(e)
  {
    r == if i in faults then Outcome(db, i + 1, true)
         else if i + 1 in faults || !Creatable(e.table.members) then Outcome(Dropped(db, e), i + 2, true)
         else if i + 2 in faults || !usable then Outcome(Emptied(db, e), i + 3, true)
         else behind
  }

  lemma {:induction false} TripleRuns(
      db: Database, world: World, faults: set<nat>, commands: seq<string>, i: nat,
      triple: seq<string>, e: Export, usable: bool)
    requires TripleDoes(world, triple, e, usable) && i + 3 <= |commands| && commands[i..i + 3] == triple
    ensures AfterTriple(db, Run(db, world, faults, commands, i), Run(Filled(db, e), world, faults, commands, i + 3),
                        faults, i, e, usable)
  {
    assert commands[i] == triple[0] && commands[i + 1] == triple[1] && commands[i + 2] == triple[2] by {
      assert commands[i..i + 3][0] == commands[i] && commands[i..i + 3][1] == commands[i + 1]
          && commands[i..i + 3][2] == commands[i + 2];
    }
    assert Execute(db, world, triple[0]) == Some(Dropped(db, e));
    RunThree(db, Dropped(db, e), Emptied(db, e), Filled(db, e), Creatable(e.table.members), usable,
             world, faults, commands, i);
  }

  lemma {:induction false} OnlyOneTableChanges(db: Database, e: Export)
    requires Readable(e)
    ensures OthersKept(db, db, [e]) && OthersKept(db, Dropped(db, e), [e])
    ensures OthersKept(db, Emptied(db, e), [e]) && OthersKept(db, Filled(db, e), [e])
  {
    forall name | !TableNamed([e], name)
      ensures name != e.table.name
    {
      assert [e][0] in [e];
    }
  }

  lemma {:induction false} NothingLoaded(r: Outcome, i: nat, exports: seq<Export>)
    requires AllReadable(exports) && Applied(r) < i + 3
    ensures TablesLoaded(r, i, exports)
    decreases |exports|
  {
    if exports != [] {
      NothingLoaded(r, i + 3, exports[1..]);
    }
  }

  lemma {:induction false} KeptIsTransitive(a: Database, b: Database, c: Database, exports: seq<Export>)
    requires exports != [] && OthersKept(a, b, [exports[0]]) && OthersKept(b, c, exports[1..])
    ensures OthersKept(a, c, exports)
  {
    forall name | !TableNamed(exports, name)
      ensures !TableNamed([exports[0]], name) && !TableNamed(exports[1..], name)
    {
      assert exports[0] in exports && forall e :: e in exports[1..] ==> e in exports;
    }
  }

  lemma {:induction false} KeptByNone(a: Database, exports: seq<Export>)
    ensures OthersKept(a, a, exports)
  {
  }

  predicate FaultAhead(faults: set<nat>, i: nat, n: nat) {
    exists f :: f in faults && i <= f < n
  }

  /** The server refuses a CREATE, because of the member list, or a LOAD, because the directory is not usable. */
  predicate SomeRefused(exports: seq<Export>, usable: bool) {
    exports != [] && (!usable || !Creatable(exports[0].table.members) || SomeRefused(exports[1..], usable))
  }

  /** It refuses the k-th of the table commands. */
  predicate RefusedAt(exports: seq<Export>, usable: bool, k: int)
    decreases |exports|
  {
    exports != [] &&
    if k >= 3 then RefusedAt(exports[1..], usable, k - 3)
    else (k == 1 && !Creatable(exports[0].table.members)) || (k == 2 && !usable)
  }

  /** What is claimed of a run r over the n commands that begins at i with the tables db. */
  ghost predicate RunsSafely(
      db: Database, r: Outcome, faults: set<nat>, i: nat, n: nat, exports: seq<Export>, usable: bool)
    requires AllReadable(exports)
  {
    && TablesLoaded(r, i, exports) && OthersKept(db, r.db, exports)
    && (r.failed <==> FaultAhead(faults, i, n) || SomeRefused(exports, usable))
    && (r.failed ==> i < r.issued && (r.issued - 1 in faults || RefusedAt(exports, usable, r.issued - 1 - i)))
    && (!r.failed ==> r.issued == n)
  }

  lemma {:induction false} RefusedIsSome(exports: seq<Export>, usable: bool, k: int)
    requires RefusedAt(exports, usable, k)
    ensures SomeRefused(exports, usable)
  {
    if k >= 3 {
      RefusedIsSome(exports[1..], usable, k - 3);
    }
  }

  lemma {:induction false} StopsHere(
      db: Database, r: Outcome, faults: set<nat>, i: nat, n: nat, exports: seq<Export>, usable: bool)
    requires AllReadable(exports) && exports != [] && OthersKept(db, r.db, [exports[0]])
    requires r.failed && i < r.issued <= i + 3 && r.issued <= n
    requires r.issued - 1 in faults || RefusedAt(exports, usable, r.issued - 1 - i)
    ensures RunsSafely(db, r, faults, i, n, exports, usable)
  {
    NothingLoaded(r, i, exports);
    KeptByNone(r.db, exports[1..]);
    KeptIsTransitive(db, r.db, r.db, exports);
    if r.issued - 1 in faults {
      assert i <= r.issued - 1 < n;
    } else {
      RefusedIsSome(exports, usable, r.issued - 1 - i);
    }
  }

  lemma {:induction false} GoesOn(
      db: Database, r: Outcome, faults: set<nat>, i: nat, n: nat, exports: seq<Export>, usable: bool)
    requires AllReadable(exports) && exports != [] && !TableNamed(exports[1..], exports[0].table.name)
    requires i !in faults && i + 1 !in faults && i + 2 !in faults && Creatable(exports[0].table.members) && usable
    requires RunsSafely(Filled(db, exports[0]), r, faults, i + 3, n, exports[1..], usable)
    ensures RunsSafely(db, r, faults, i, n, exports, usable)
  {
    var e := exports[0];
    assert OthersKept(db, r.db, exports) by {
      OnlyOneTableChanges(db, e);
      KeptIsTransitive(db, Filled(db, e), r.db, exports);
    }
    SkipNoFault(faults, i, n);
    assert e.table.name in r.db && r.db[e.table.name] == LoadedTable(e) by {
      assert e.table.name in Filled(db, e);
    }
  }

  lemma {:induction false} FaultHereOrAhead(faults: set<nat>, i: nat, n: nat)
    ensures FaultAhead(faults, i, n) <==> (i < n && i in faults) || FaultAhead(faults, i + 1, n)
  {
    if FaultAhead(faults, i, n) {
      var f :| f in faults && i <= f < n;
      assert f == i || (i + 1 <= f < n);
    }
  }

  lemma {:induction false} SkipNoFault(faults: set<nat>, i: nat, n: nat)
    requires i !in faults && i + 1 !in faults && i + 2 !in faults
    ensures FaultAhead(faults, i, n) <==> FaultAhead(faults, i + 3, n)
  {
    FaultHereOrAhead(faults, i, n);
    FaultHereOrAhead(faults, i + 1, n);
    FaultHereOrAhead(faults, i + 2, n);
  }

  lemma {:induction false} TripleStops(
      db: Database, r: Outcome, behind: Outcome, faults: set<nat>, i: nat, n: nat, exports: seq<Export>, usable: bool)
    requires AllReadable(exports) && exports != [] && !TableNamed(exports[1..], exports[0].table.name) && i + 3 <= n
    requires AfterTriple(db, r, behind, faults, i, exports[0], usable)
    requires RunsSafely(Filled(db, exports[0]), behind, faults, i + 3, n, exports[1..], usable)
    ensures RunsSafely(db, r, faults, i, n, exports, usable)
  {
    if i in faults || i + 1 in faults || i + 2 in faults || !Creatable(exports[0].table.members) || !usable {
      OnlyOneTableChanges(db, exports[0]);
      StopsHere(db, r, faults, i, n, exports, usable);
    } else {
      GoesOn(db, r, faults, i, n, exports, usable);
    }
  }

  /**
   Every run over the table commands: it stops at a fault or at a command that the server refuses, it fails exactly if
   there is one, and each LOAD that took effect filled its table.
   */
  lemma {:induction false} RunTables(
      db: Database, world: World, faults: set<nat>, commands: seq<string>, i: nat,
      triples: seq<seq<string>>, exports: seq<Export>, usable: bool)
    requires AllReadable(exports) && DistinctTables(exports) && AllDo(world, triples, exports, usable)
    requires i <= |commands| && commands[i..] == Flat(triples)
    ensures RunsSafely(db, Run(db, world, faults, commands, i), faults, i, |commands|, exports, usable)
    decreases |exports|
  {
    if exports == [] {
      KeptByNone(db, exports);
    } else {
      assert commands[i..][3..] == commands[i + 3..] && commands[i..][..3] == commands[i..i + 3];
      RunTables(Filled(db, exports[0]), world, faults, commands, i + 3, triples[1..], exports[1..], usable);
      TripleRuns(db, world, faults, commands, i, triples[0], exports[0], usable);
      TripleStops(db, Run(db, world, faults, commands, i), Run(Filled(db, exports[0]), world, faults, commands, i + 3),
                  faults, i, |commands|, exports, usable);
    }
  }

  /** The run over a longer list is the run over its first part, and then over the rest. */
  lemma {:induction false} RunThrough(
      db: Database, world: World, faults: set<nat>, commands: seq<string>, i: nat, n: nat)
    requires i <= n <= |commands|
    ensures var first := Run(db, world, faults, commands[..n], i);
      Run(db, world, faults, commands, i)
      == if first.failed then first else Run(first.db, world, faults, commands, n)
    decreases n - i
  {
    if i < n && i !in faults {
      assert commands[..n][i] == commands[i];
      match Execute(db, world, commands[i])
      case None =>
      case Some(next) => RunThrough(next, world, faults, commands, i + 1, n);
    }
  }

  lemma {:induction false} FilesKept(files: map<string, string>, tempdir: string, exports: seq<Export>, file: string)
    requires AllExportable(exports)
    requires forall e :: e in exports ==> FileNamed(WritePath(tempdir, e.table.name)) != file
    ensures file in files ==>
      file in FilesAfter(files, tempdir, exports) && FilesAfter(files, tempdir, exports)[file] == files[file]
    decreases |exports|
  {
    if exports != [] {
      var e := exports[0];
      assert e in exports && forall x :: x in exports[1..] ==> x in exports;
      FilesKept(files[FileNamed(WritePath(tempdir, e.table.name)) := FileText(e.table.members, e.rows, true, ',')],
                tempdir, exports[1..], file);
    }
  }

  predicate TablesAreNamed(exports: seq<Export>) {
    exports == [] || (IsName(exports[0].table.name) && TablesAreNamed(exports[1..]))
  }

  lemma {:induction false} ReadableNames(exports: seq<Export>)
    requires AllReadable(exports)
    ensures AllExportable(exports) && TablesAreNamed(exports)
  {
    if exports != [] {
      ReadableNames(exports[1..]);
    }
  }

  lemma {:induction false} NamesOfTables(exports: seq<Export>)
    requires TablesAreNamed(exports)
    ensures forall e :: e in exports ==> IsName(e.table.name)
  {
    if exports != [] {
      NamesOfTables(exports[1..]);
    }
  }

  /** Tables with distinct names do not overwrite each other's files. */
  lemma {:induction false} FilesAreThere(files: map<string, string>, tempdir: string, exports: seq<Export>)
    requires AllExportable(exports) && TablesAreNamed(exports) && DistinctTables(exports)
    ensures AllFilesThere(FilesAfter(files, tempdir, exports), tempdir, exports)
    decreases |exports|
  {
    NamesOfTables(exports);
    if exports != [] {
      var e, rest := exports[0], exports[1..];
      var file := FileNamed(WritePath(tempdir, e.table.name));
      var next := files[file := FileText(e.table.members, e.rows, true, ',')];
      FilesAreThere(next, tempdir, rest);
      forall x | x in rest
        ensures FileNamed(WritePath(tempdir, x.table.name)) != file
      {
        assert x.table.name != e.table.name && x in exports && e in exports;
        FilesDiffer(tempdir, x.table.name, e.table.name);
      }
      FilesKept(next, tempdir, rest, file);
    }
  }

  /** No file is where a LOAD would look for one in a directory that is not usable. */
  predicate NothingStale(files: map<string, string>, tempdir: string, exports: seq<Export>) {
    exports == [] ||
    (FileNamed(LoadPath(tempdir, exports[0].table.name)) !in files && NothingStale(files, tempdir, exports[1..]))
  }

  predicate DirectoryIsKnown(files: map<string, string>, tempdir: string, exports: seq<Export>) {
    '\'' !in tempdir && (UsableDirectory(tempdir) || NothingStale(files, tempdir, exports))
  }

  /** In a directory that is not usable, no LOAD finds the file of any table. */
  lemma {:induction false} LoadMisses(tempdir: string, a: string, b: string)
    requires IsName(a) && IsName(b) && !UsableDirectory(tempdir)
    ensures FileNamed(LoadPath(tempdir, a)) != FileNamed(WritePath(tempdir, b))
  {
    var x, y := a + "_values.txt", b + "_values.txt";
    assert x[0] in a && y[0] in b;
    assert WritePath(tempdir, b) == tempdir + y;
    assert LoadPath(tempdir, a) == tempdir + ("\\" + x) by {
      Reassociate("\\", a, "_values.txt");
      Reassociate(tempdir, "\\", x);
    }
    NamedAppend(tempdir, y);
    NormalOfName(y, EndsInSlash(tempdir));
    assert FileNamed(WritePath(tempdir, b)) == FileNamed(tempdir) + y;
    NextIsSlash(tempdir, x);
  }

  /** Where the name of the file would stand in the path that was written to, the path of the LOAD has a slash. */
  lemma {:induction false} NextIsSlash(dir: string, x: string)
    requires x != "" && !IsSlash(x[0]) && !UsableDirectory(dir)
    ensures var path, n := FileNamed(dir + ("\\" + x)), |FileNamed(dir)|; n < |path| && path[n] == '\\'
  {
    if |dir| >= 2 {
      SeparatorCounts(dir, x);
    } else if dir == "" {
      assert dir + ("\\" + x) == "\\" + x;
    } else {
      assert dir[1..] == "" && (dir + ("\\" + x))[1] == '\\';
      if !IsSlash(dir[0]) {
        NormalAppend(dir, "\\" + x, false);
      }
    }
  }

  lemma {:induction false} StillNothingStale(
      files: map<string, string>, tempdir: string, exports: seq<Export>, written: seq<Export>)
    requires AllExportable(written) && TablesAreNamed(written) && TablesAreNamed(exports)
    requires !UsableDirectory(tempdir) && NothingStale(files, tempdir, exports)
    ensures NothingStale(FilesAfter(files, tempdir, written), tempdir, exports)
    decreases |written|
  {
    if written != [] {
      var e := written[0];
      var text := FileText(e.table.members, e.rows, true, ',');
      var next := files[FileNamed(WritePath(tempdir, e.table.name)) := text];
      OneMoreFile(files, tempdir, exports, e, text);
      StillNothingStale(next, tempdir, exports, written[1..]);
    }
  }

  lemma {:induction false} OneMoreFile(
      files: map<string, string>, tempdir: string, exports: seq<Export>, e: Export, text: string)
    requires IsName(e.table.name) && TablesAreNamed(exports)
    requires !UsableDirectory(tempdir) && NothingStale(files, tempdir, exports)
    ensures NothingStale(files[FileNamed(WritePath(tempdir, e.table.name)) := text], tempdir, exports)
  {
    if exports != [] {
      LoadMisses(tempdir, exports[0].table.name, e.table.name);
      OneMoreFile(files, tempdir, exports[1..], e, text);
    }
  }

  lemma {:induction false} FilesAreKnown(files: map<string, string>, tempdir: string, exports: seq<Export>)
    requires AllExportable(exports)
    requires if UsableDirectory(tempdir) then AllFilesThere(files, tempdir, exports)
             else NothingStale(files, tempdir, exports)
    ensures AllFilesKnown(files, tempdir, exports)
  {
    if exports != [] {
      FilesAreKnown(files, tempdir, exports[1..]);
    }
  }

  lemma {:induction false} WrittenFilesAreKnown(files: map<string, string>, tempdir: string, exports: seq<Export>)
    requires AllExportable(exports) && TablesAreNamed(exports) && DistinctTables(exports)
    requires DirectoryIsKnown(files, tempdir, exports)
    ensures AllFilesKnown(FilesAfter(files, tempdir, exports), tempdir, exports)
  {
    if UsableDirectory(tempdir) {
      FilesAreThere(files, tempdir, exports);
    } else {
      StillNothingStale(files, tempdir, exports, exports);
    }
    FilesAreKnown(FilesAfter(files, tempdir, exports), tempdir, exports);
  }

  /**
   Every run of the upload, from any database, with any faults: what follows the procedure commands stops only at a
   fault or at a command that the server refuses, it fails exactly if there is one, every LOAD that took effect left its
   table exactly filled, and no other table is touched.
   */
  lemma {:induction false} UploadIsSafe(
      db: Database, files: map<string, string>, procedures: set<string>, faults: set<nat>,
      tempdir: string, scripts: seq<string>, exports: seq<Export>)
    requires AllReadable(exports) && DistinctTables(exports) && DirectoryIsKnown(files, tempdir, exports)
    ensures AllExportable(exports)
    ensures var world := World(FilesAfter(files, tempdir, exports), procedures);
      var before := ScriptCommands(scripts);
      var commands := before + AllCommands(tempdir, exports);
      var start, r := Run(db, world, faults, before, 0), Run(db, world, faults, commands, 0);
      if start.failed then r == start
      else RunsSafely(start.db, r, faults, |before|, |commands|, exports, UsableDirectory(tempdir))
  {
    ReadableNames(exports);
    WrittenFilesAreKnown(files, tempdir, exports);
    var world := World(FilesAfter(files, tempdir, exports), procedures);
    var before := ScriptCommands(scripts);
    var commands := before + AllCommands(tempdir, exports);
    assert commands[..|before|] == before && commands[|before|..] == AllCommands(tempdir, exports);
    RunThrough(db, world, faults, commands, 0, |before|);
    var start := Run(db, world, faults, before, 0);
    if !start.failed {
      GeneratedTriplesDo(world, tempdir, exports);
      RunTables(start.db, world, faults, commands, |before|, Triples(tempdir, exports), exports,
                UsableDirectory(tempdir));
    }
  }

  lemma {:induction false} LoadedAt(r: Outcome, i: nat, exports: seq<Export>, k: nat)
    requires AllReadable(exports) && TablesLoaded(r, i, exports) && k < |exports| && i + 3 * k + 3 <= Applied(r)
    ensures Readable(exports[k])
    ensures exports[k].table.name in r.db && r.db[exports[k].table.name] == LoadedTable(exports[k])
    decreases k
  {
    if k > 0 {
      LoadedAt(r, i + 3, exports[1..], k - 1);
    }
  }

  /**
   End to end. When the upload ends without an error, every table has the columns of its member list in order, and
   reading its rows gives back the exported ones exactly when these fit: strings of at most 2047 characters, listed
   enumeration values, distinct primary keys.
   */
  lemma {:induction false} UploadRebuildsTables(
      db: Database, files: map<string, string>, procedures: set<string>, faults: set<nat>,
      tempdir: string, scripts: seq<string>, exports: seq<Export>, k: nat)
    requires AllReadable(exports) && DistinctTables(exports) && DirectoryIsKnown(files, tempdir, exports)
    requires k < |exports| && DistinctSpellings(exports[k].table.members)
    ensures AllExportable(exports)
    ensures var world := World(FilesAfter(files, tempdir, exports), procedures);
      var r := Run(db, world, faults, ScriptCommands(scripts) + AllCommands(tempdir, exports), 0);
      var name, members, rows := exports[k].table.name, exports[k].table.members, exports[k].rows;
      !r.failed ==>
        && name in r.db
        && r.db[name].columns == DefsOf(members)
        && RowsHaveType(rows, members) && (KeyOf(members).Some? ==> KeyOf(members).value < |members|)
        && (RowsValue(members, r.db[name].rows) == Some(rows) <==>
              RowsFit(members, rows) && KeysDiffer(KeyOf(members), rows))
  {
    UploadIsSafe(db, files, procedures, faults, tempdir, scripts, exports);
    CommandCount(tempdir, exports);
    var world := World(FilesAfter(files, tempdir, exports), procedures);
    var before := ScriptCommands(scripts);
    var r := Run(db, world, faults, before + AllCommands(tempdir, exports), 0);
    if !r.failed {
      LoadedAt(r, |before|, exports, k);
      PresentableIsSpelled(exports[k].table.members);
      TableRebuilt(exports[k].table.members, exports[k].rows);
    }
  }
}
