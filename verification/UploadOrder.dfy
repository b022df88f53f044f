/** The order of the table commands, in every prefix that a run may send. */
module UploadOrder {
  import opened StringUtils
  import opened Reflection
  import opened SqlLiterals
  import opened SqlParser
  import opened SchemaRoundTrip
  import opened CreateRoundTrip
  import opened LoadRoundTrip
  import opened Server
  import opened Upload
  import opened UploadSafety

  /** How the server reads each of the commands. */
  function Readings(commands: seq<string>): (r: seq<Option<Statement>>)
    ensures |r| == |commands|
  {
    if commands == [] then [] else [Parse(commands[0])] + Readings(commands[1..])
  }

  lemma {:induction false} ReadingsAppend(a: seq<string>, b: seq<string>)
    ensures Readings(a + b) == Readings(a) + Readings(b)
  {
    if a == [] {
      assert a + b == b && Readings(a) + Readings(b) == Readings(b);
    } else {
      assert (a + b)[1..] == a[1..] + b;
      ReadingsAppend(a[1..], b);
      Reassociate([Parse(a[0])], Readings(a[1..]), Readings(b));
    }
  }

  predicate Drops(s: Option<Statement>, name: string) {
    s == Some(DropTable(name))
  }

  predicate Creates(s: Option<Statement>, name: string) {
    s.Some? && s.value.CreateTable? && s.value.name == name
  }

  predicate Loads(s: Option<Statement>, name: string) {
    s.Some? && s.value.LoadData? && s.value.table == name
  }

  /** Triples of a DROP, a CREATE and a LOAD, each of one table. */
  predicate InTriples(ss: seq<Option<Statement>>, names: seq<string>)
    decreases |names|
  {
    if names == [] then ss == []
    else
      && |ss| >= 3 && Drops(ss[0], names[0]) && Creates(ss[1], names[0]) && Loads(ss[2], names[0])
      && InTriples(ss[3..], names[1..])
  }

  function TableNames(exports: seq<Export>): seq<string> {
    if exports == [] then [] else [exports[0].table.name] + TableNames(exports[1..])
  }

  predicate AllTablesReadable(exports: seq<Export>) {
    exports == [] || (ReadableTable(exports[0].table) && AllTablesReadable(exports[1..]))
  }

  lemma {:induction false} TripleIsRead(tempdir: string, table: Struct)
    requires ReadableTable(table) && '\'' !in tempdir
    ensures var name, members := table.name, table.members;
      Readings(TableCommands(tempdir, table))
      == [Some(DropTable(name)), Some(CreateTable(name, ColumnsOf(members) + KeysOf(members), CommentOf(table.desc))),
          Some(LoadStatement(LoadPath(tempdir, name), name, members))]
  {
    var name, members := table.name, table.members;
    ParseDropBack(name);
    ParseCreateBack(name, table.desc, members);
    DirectoryDecodes(tempdir, name);
    PresentableIsNamed(members);
    ParseLoadBack(EscapedDirectory(tempdir), name, LoadPath(tempdir, name), members);
    ReadingsOfThree(DropCommand(name), CreateText(name, table.desc, members),
                    LoadCommand(EscapedDirectory(tempdir), name, EndClause(members)));
  }

  lemma {:induction false} ReadingOfOne(a: string)
    ensures Readings([a]) == [Parse(a)]
  {
    assert [a][1..] == [];
  }

  lemma {:induction false} ReadingsOfThree(a: string, b: string, c: string)
    ensures Readings([a, b, c]) == [Parse(a), Parse(b), Parse(c)]
  {
    ReadingOfOne(a);
    ReadingOfOne(b);
    ReadingOfOne(c);
    ReadingsAppend([a], [b]);
    ReadingsAppend([a] + [b], [c]);
    assert [a, b, c] == [a] + [b] + [c];
  }

  /** All table commands together, in the order of the tables. */
  lemma {:induction false} TablesInTriples(tempdir: string, exports: seq<Export>)
    requires AllTablesReadable(exports) && '\'' !in tempdir
    ensures InTriples(Readings(AllCommands(tempdir, exports)), TableNames(exports))
    decreases |exports|
  {
    if exports != [] {
      var first, rest := TableCommands(tempdir, exports[0].table), AllCommands(tempdir, exports[1..]);
      TablesInTriples(tempdir, exports[1..]);
      TripleIsRead(tempdir, exports[0].table);
      ReadingsAppend(first, rest);
      TripleAhead(Readings(first), Readings(rest), exports[0].table.name, TableNames(exports[1..]));
    }
  }

  lemma {:induction false} TripleAhead(
      triple: seq<Option<Statement>>, rest: seq<Option<Statement>>, name: string, names: seq<string>)
    requires |triple| == 3 && Drops(triple[0], name) && Creates(triple[1], name) && Loads(triple[2], name)
    requires InTriples(rest, names)
    ensures InTriples(triple + rest, [name] + names)
  {
    assert (triple + rest)[3..] == rest && ([name] + names)[1..] == names;
  }

  predicate FollowsItsTable(ss: seq<Option<Statement>>, j: nat, name: string)
    requires j < |ss|
  {
    j >= 2 && Drops(ss[j - 2], name) && Creates(ss[j - 1], name)
  }

  lemma {:induction false} LoadsComeThird(ss: seq<Option<Statement>>, names: seq<string>, j: nat, name: string)
    requires InTriples(ss, names) && j < |ss| && Loads(ss[j], name)
    ensures FollowsItsTable(ss, j, name)
    decreases |names|
  {
    if j >= 3 {
      LoadsComeThird(ss[3..], names[1..], j - 3, name);
    }
  }

  lemma {:induction false} LoadsComeThirdBehind(
      before: seq<string>, tables: seq<string>, names: seq<string>, j: nat, name: string)
    requires InTriples(Readings(tables), names) && |before| <= j < |before + tables|
    requires Loads(Readings(before + tables)[j], name)
    ensures FollowsItsTable(Readings(before + tables), j, name) && |before| <= j - 2
  {
    ReadingsAppend(before, tables);
    LoadsComeThird(Readings(tables), names, j - |before|, name);
  }

  /**
   In any run, from any tables and with any faults, a LOAD that was sent behind the procedure commands comes right after
   the DROP and the CREATE of its own table, and the server took both of these.
   */
  lemma {:induction false} LoadsFollowTheirTables(
      db: Database, world: World, faults: set<nat>, before: seq<string>, tempdir: string, exports: seq<Export>,
      j: nat, name: string)
    requires AllTablesReadable(exports) && '\'' !in tempdir
    requires |before| <= j < Run(db, world, faults, before + AllCommands(tempdir, exports), 0).issued
    requires Loads(Readings(before + AllCommands(tempdir, exports))[j], name)
    ensures FollowsItsTable(Readings(before + AllCommands(tempdir, exports)), j, name) && |before| <= j - 2
    ensures j - 1 < Applied(Run(db, world, faults, before + AllCommands(tempdir, exports), 0))
  {
    TablesInTriples(tempdir, exports);
    LoadsComeThirdBehind(before, AllCommands(tempdir, exports), TableNames(exports), j, name);
  }
}
