/** The MySQL back end: drpdb/src/MySQLOutput.cpp, and the error latch of drpdb/src/drpdb.cpp. */
module Upload {
  import opened StringUtils
  import opened Reflection
  import opened CsvWriter
  import opened Schema
  import opened CreateRoundTrip
  import opened LoadRoundTrip
  import opened Directives
  import opened Procedures
  import opened Server
  import SqlLiterals

  /** One `BEGIN_STRUCT`: the table and the vector it is filled from. */
  datatype Export = Export(table: Struct, rows: seq<Row>)

  /** The directory of the data files, as text. */
  class Disk {
    var files: map<string, string>

    constructor ()
      ensures files == map[]
    {
      files := map[];
    }

    /** `std::ofstream(path, std::ios::out | std::ios::binary) << text` */
    method Write(path: string, text: string)
      modifies this
      ensures files == old(files)[FileNamed(path) := text]
    {
      files := files[FileNamed(path) := text];
    }
  }

  function WritePath(tempdir: string, name: string): string {
    tempdir + name + "_values.txt"
  }

  /** `replace(tempdir, "\\", "\\\\") + "\\\\"` */
  function EscapedDirectory(tempdir: string): string {
    ReplaceAll(tempdir, "\\", "\\\\") + "\\\\"
  }

  /** The three commands of one table. */
  function TableCommands(tempdir: string, table: Struct): seq<string> {
    [DropCommand(table.name),
     CreateText(table.name, table.desc, table.members),
     LoadCommand(EscapedDirectory(tempdir), table.name, EndClause(table.members))]
  }

  function AllCommands(tempdir: string, exports: seq<Export>): seq<string> {
    if exports == [] then [] else TableCommands(tempdir, exports[0].table) + AllCommands(tempdir, exports[1..])
  }

  predicate Exportable(e: Export) {
    e.table.members != [] && RowsHaveType(e.rows, e.table.members)
  }

  predicate AllExportable(exports: seq<Export>) {
    exports == [] || (Exportable(exports[0]) && AllExportable(exports[1..]))
  }

  /** The files after writing one data file per table. */
  function FilesAfter(files: map<string, string>, tempdir: string, exports: seq<Export>): map<string, string>
    requires AllExportable(exports)
    decreases |exports|
  {
    if exports == [] then files
    else
      var e := exports[0];
      FilesAfter(files[FileNamed(WritePath(tempdir, e.table.name)) := FileText(e.table.members, e.rows, true, ',')],
                 tempdir, exports[1..])
  }

  function ScriptCommands(scripts: seq<string>): seq<string> {
    if scripts == [] then [] else ParseFrom(scripts[0], 0).commands + ScriptCommands(scripts[1..])
  }

  /** The commands of a script come behind those of the scripts before it, and each script gives its own. */
  lemma {:induction false} ScriptsInOrder(before: seq<string>, script: string, behind: seq<string>)
    ensures ScriptCommands(before + [script] + behind)
         == ScriptCommands(before) + ParseFrom(script, 0).commands + ScriptCommands(behind)
  {
    var all := before + [script] + behind;
    if before == [] {
      assert all[0] == script && all[1..] == behind;
    } else {
      assert all[0] == before[0] && all[1..] == before[1..] + [script] + behind;
      ScriptsInOrder(before[1..], script, behind);
      var own := ParseFrom(before[0], 0).commands;
      Reassociate(own, ScriptCommands(before[1..]), ParseFrom(script, 0).commands);
      Reassociate(own, ScriptCommands(before[1..]) + ParseFrom(script, 0).commands, ScriptCommands(behind));
    }
  }

  class OutputData {
    var uploadCommands: seq<string>
    const tempdir: string
    const tempdirEscaped: string
    const disk: Disk

    constructor (tempdir: string, disk: Disk)
      ensures this.tempdir == tempdir && tempdirEscaped == EscapedDirectory(tempdir) && this.disk == disk
      ensures uploadCommands == []
    {
      var escaped := Replace(tempdir, "\\", "\\\\");
      this.tempdir := tempdir;
      this.tempdirEscaped := escaped + "\\\\";
      this.disk := disk;
      this.uploadCommands := [];
    }

    method Push(command: string)
      modifies `uploadCommands
      ensures uploadCommands == old(uploadCommands) + [command]
    {
      uploadCommands := uploadCommands + [command];
    }

    method LoadTable(name: string, end: string)
      modifies `uploadCommands
      ensures uploadCommands == old(uploadCommands) + [LoadCommand(tempdirEscaped, name, end)]
    {
      var cmd := "load data local infile '";
      cmd := cmd + tempdirEscaped;
      cmd := cmd + name;
      cmd := cmd + "_values.txt' into table ";
      cmd := cmd + name;
      cmd := cmd + (" fields terminated by ','" + " optionally enclosed by '\"'" + " lines terminated by '\\n'");
      cmd := cmd + end;
      cmd := cmd + ";";
      Push(cmd);
    }

    method OpenTable(ar: SchemaWriter, name: string)
      requires ar.result == ""
      modifies ar`result
      ensures ar.result == "CREATE TABLE " + name + "("
    {
      ar.result := ar.result + "CREATE TABLE ";
      assert ar.result == "CREATE TABLE ";
      ar.result := ar.result + name;
      ar.result := ar.result + "(";
    }

    method CloseTable(ar: SchemaWriter, desc: string)
      requires ar.result != ""
      modifies ar`result
      ensures ar.result
        == WithoutLastComma(old(ar.result)) + ") Engine=MyISAM" + " COMMENT='" + SqlLiterals.Doubled(desc) + "';"
    {
      if ar.result[|ar.result| - 1] == ',' {
        ar.result := ar.result[..|ar.result| - 1];
      }
      ar.result := ar.result + ") Engine=MyISAM";
      ar.result := ar.result + " COMMENT='";
      var tempDesc := Replace(desc, "'", "''");
      ar.result := ar.result + tempDesc;
      ar.result := ar.result + "';";
    }

    /** The CREATE TABLE text, grown in the schema writer. */
    method WriteCreate(ar: SchemaWriter, table: Struct)
      requires ar.useBitType && ar.result == "" && ar.keys == "" && ar.setClause == "" && ar.loadClause == " ("
      modifies ar
      ensures ar.result == CreateText(table.name, table.desc, table.members)
      ensures ar.loadClause == " (" + LoadsText(table.members, true)
      ensures ar.setClause == SetClauses("", table.members, true)
    {
      OpenTable(ar, table.name);
      ar.WriteStruct(table.members);
      assert ar.keys == KeysText(table.members);
      ar.result := ar.result + ar.keys;
      CloseTable(ar, table.desc);
    }

    method CreateTable(table: Struct) returns (end: string)
      requires table.members != []
      modifies `uploadCommands
      ensures end == EndClause(table.members)
      ensures uploadCommands
        == old(uploadCommands) + [DropCommand(table.name), CreateText(table.name, table.desc, table.members)]
    {
      Push("DROP TABLE IF EXISTS " + table.name + ";");
      var ar := new SchemaWriter(true);
      WriteCreate(ar, table);
      Push(ar.result);
      ar.loadClause := ar.loadClause[..|ar.loadClause| - 1];
      end := ar.loadClause + ") " + ar.setClause;
    }

    method PopulateTable(table: Struct, rows: seq<Row>)
      requires table.members != [] && RowsHaveType(rows, table.members)
      modifies disk
      ensures disk.files
        == old(disk.files)[FileNamed(WritePath(tempdir, table.name)) := FileText(table.members, rows, true, ',')]
    {
      var ar := new Writer(true, ',');
      ghost var text := FileText(table.members, rows, true, ',');
      assert "" + text == text;
      ar.PopulateTable(table.members, rows);
      disk.Write(tempdir + table.name + "_values.txt", ar.out);
    }

    method BuildTable(e: Export)
      requires Exportable(e) && tempdirEscaped == EscapedDirectory(tempdir)
      modifies this, disk
      ensures uploadCommands == old(uploadCommands) + TableCommands(tempdir, e.table)
      ensures disk.files
        == old(disk.files)[FileNamed(WritePath(tempdir, e.table.name)) := FileText(e.table.members, e.rows, true, ',')]
    {
      var end := CreateTable(e.table);
      PopulateTable(e.table, e.rows);
      LoadTable(e.table.name, end);
    }

    /** False when `substr` throws. */
    method ParseProcedure(sequence: string) returns (ok: bool)
      modifies `uploadCommands
      ensures uploadCommands == old(uploadCommands) + ParseFrom(sequence, 0).commands
      ensures ok == !ParseFrom(sequence, 0).thrown
    {
      var prev := 0;
      var next := Find(sequence, DIRECTIVE, 0);
      ghost var goal := uploadCommands + ParseFrom(sequence, 0).commands;
      while next != NPOS
        invariant next == Find(sequence, DIRECTIVE, prev)
        invariant uploadCommands + ParseFrom(sequence, prev).commands == goal
        invariant ParseFrom(sequence, prev).thrown == ParseFrom(sequence, 0).thrown
        decreases |sequence| + 2 - prev
      {
        Reassociate(uploadCommands, [Substr(sequence, prev, next)], ParseFrom(sequence, next + 14).commands);
        Push(Substr(sequence, prev, next));
        prev := next + 14;
        next := Find(sequence, DIRECTIVE, prev);
      }
      if prev > |sequence| {
        assert uploadCommands + [] == uploadCommands;
        return false;
      }
      Push(sequence[prev..]);
      return true;
    }

    /** False when a script makes `ParseProcedure` throw: then nothing is uploaded. */
    method GenerateProcedures(scripts: seq<string>) returns (ok: bool)
      modifies `uploadCommands
      ensures ok <==> forall script :: script in scripts ==> !ParseFrom(script, 0).thrown
      ensures ok ==> uploadCommands == old(uploadCommands) + ScriptCommands(scripts)
    {
      ghost var goal := uploadCommands + ScriptCommands(scripts);
      assert scripts[0..] == scripts;
      for i := 0 to |scripts|
        invariant uploadCommands + ScriptCommands(scripts[i..]) == goal
        invariant forall k :: 0 <= k < i ==> !ParseFrom(scripts[k], 0).thrown
      {
        assert scripts[i..][1..] == scripts[i + 1..];
        Reassociate(uploadCommands, ParseFrom(scripts[i], 0).commands, ScriptCommands(scripts[i + 1..]));
        ok := ParseProcedure(scripts[i]);
        if !ok {
          return;
        }
      }
      ok := true;
    }

    method GenerateCommands(scripts: seq<string>, exports: seq<Export>) returns (ok: bool)
      requires AllExportable(exports) && tempdirEscaped == EscapedDirectory(tempdir)
      modifies this, disk
      ensures ok <==> forall script :: script in scripts ==> !ParseFrom(script, 0).thrown
      ensures ok ==>
        && uploadCommands == old(uploadCommands) + ScriptCommands(scripts) + AllCommands(tempdir, exports)
        && disk.files == FilesAfter(old(disk.files), tempdir, exports)
    {
      ok := GenerateProcedures(scripts);
      if ok {
        ghost var goal := uploadCommands + AllCommands(tempdir, exports);
        ghost var files := disk.files;
        assert exports[0..] == exports;
        for i := 0 to |exports|
          invariant AllExportable(exports[i..])
          invariant uploadCommands + AllCommands(tempdir, exports[i..]) == goal
          invariant FilesAfter(disk.files, tempdir, exports[i..]) == FilesAfter(files, tempdir, exports)
        {
          assert exports[i..][1..] == exports[i + 1..];
          Reassociate(uploadCommands, TableCommands(tempdir, exports[i].table), AllCommands(tempdir, exports[i + 1..]));
          BuildTable(exports[i]);
        }
      }
    }
  }

  // ------------------------------------------------------------- execution

  /** `gErr`, `set_error` and `has_error`. */
  class ErrorLatch {
    var text: string

    constructor ()
      ensures text == ""
    {
      text := "";
    }

    /** An empty message latches too. */
    method SetError(message: string)
      modifies this
      ensures text == old(text) + message + "\r\n" && text != ""
    {
      text := text + message;
      text := text + "\r\n";
    }
  }

  /** The state after a run: the tables, how many commands were sent, and whether the last one failed. */
  datatype Outcome = Outcome(db: Database, issued: nat, failed: bool)

  /** Commands go out in order from the i-th on, until one fails: by itself, or because the connection does. */
  function Run(db: Database, world: World, faults: set<nat>, commands: seq<string>, i: nat): (r: Outcome)
    requires i <= |commands|
    ensures i <= r.issued <= |commands| && (r.failed ==> i < r.issued)
    decreases |commands| - i
  {
    if i == |commands| then Outcome(db, i, false)
    else if i in faults then Outcome(db, i + 1, true)
    else
      match Execute(db, world, commands[i])
      case None => Outcome(db, i + 1, true)
      case Some(db') => Run(db', world, faults, commands, i + 1)
  }

  /**
   `SingleConnection`; a number in `faults` is the position of a command at which the connection breaks. What
   `mysql_error` says is a parameter; it is asked for once at most, as nothing is sent when there is an error.
   */
  class Session {
    var db: Database
    var issued: seq<string>
    const world: World
    const faults: set<nat>
    const complaint: string

    constructor (
        db: Database, world: World, faults: set<nat>, reachable: bool, complaint: string, latch: ErrorLatch)
      modifies latch
      ensures this.db == db && this.world == world && this.faults == faults && issued == []
      ensures this.complaint == complaint
      ensures latch.text == if reachable then old(latch.text) else old(latch.text) + complaint + "\r\n"
    {
      this.db := db;
      this.world := world;
      this.faults := faults;
      this.complaint := complaint;
      this.issued := [];
      new;
      if !reachable {
        latch.SetError(complaint);
      }
    }

    method Send(command: string, latch: ErrorLatch)
      modifies this, latch
      ensures issued == old(issued) + [command]
      ensures var reply := if |old(issued)| in faults then None else Execute(old(db), world, command);
        && (reply.None? ==> latch.text == old(latch.text) + complaint + "\r\n" && db == old(db))
        && (reply.Some? ==> latch.text == old(latch.text) && db == reply.value)
    {
      var reply := if |issued| in faults then None else Execute(db, world, command);
      issued := issued + [command];
      match reply
      case None => latch.SetError(complaint);
      case Some(next) => db := next;
    }
  }

  lemma {:induction false} RunStep(db: Database, world: World, faults: set<nat>, commands: seq<string>, i: nat)
    requires i < |commands|
    ensures var reply := if i in faults then None else Execute(db, world, commands[i]);
      Run(db, world, faults, commands, i)
      == if reply.None? then Outcome(db, i + 1, true) else Run(reply.value, world, faults, commands, i + 1)
  {
  }

  /** The loop of `output`. */
  method ExecuteAll(commands: seq<string>, session: Session, latch: ErrorLatch)
    requires session.issued == []
    modifies session, latch
    ensures old(latch.text) != "" ==>
      session.issued == [] && session.db == old(session.db) && latch.text == old(latch.text)
    ensures old(latch.text) == "" ==>
      var r := Run(old(session.db), session.world, session.faults, commands, 0);
      && session.issued == commands[..r.issued] && session.db == r.db
      && latch.text == if r.failed then session.complaint + "\r\n" else ""
  {
    if latch.text != "" {
      return;
    }
    ghost var goal := Run(session.db, session.world, session.faults, commands, 0);
    var i := 0;
    while latch.text == "" && i < |commands|
      invariant i <= |commands| && session.issued == commands[..i]
      invariant latch.text == "" ==> Run(session.db, session.world, session.faults, commands, i) == goal
      invariant latch.text != "" ==>
        goal == Outcome(session.db, i, true) && latch.text == session.complaint + "\r\n"
    {
      ghost var db := session.db;
      session.Send(commands[i], latch);
      assert session.issued == commands[..i + 1];
      RunStep(db, session.world, session.faults, commands, i);
      i := i + 1;
    }
  }
}
