/** The engine as a whole: `output` of drpdb/src/MySQLOutput.cpp, from the exported rows to the tables of the server. */
module UploadEngine {
  import opened StringUtils
  import opened Reflection
  import opened SqlParser
  import opened Server
  import opened TableRoundTrip
  import opened Directives
  import opened Procedures
  import opened Upload
  import opened UploadSafety

  /** The table is there with the members as columns, and its rows stand for the exported ones if these fit. */
  ghost predicate Arrived(db: Database, e: Export)
    requires Readable(e)
  {
    var name, members := e.table.name, e.table.members;
    && name in db
    && db[name].columns == DefsOf(members)
    && RowsHaveType(e.rows, members) && (KeyOf(members).Some? ==> KeyOf(members).value < |members|)
    && (DistinctSpellings(members) ==>
          (RowsValue(members, db[name].rows) == Some(e.rows) <==>
             RowsFit(members, e.rows) && KeysDiffer(KeyOf(members), e.rows)))
  }

  ghost predicate AllArrived(db: Database, exports: seq<Export>)
    requires AllReadable(exports)
  {
    exports == [] || (Arrived(db, exports[0]) && AllArrived(db, exports[1..]))
  }

  lemma {:induction false} LoadedHasArrived(db: Database, e: Export)
    requires Readable(e) && e.table.name in db && db[e.table.name] == LoadedTable(e)
    ensures Arrived(db, e)
  {
    PresentableIsSpelled(e.table.members);
    KeyIsMember(e.table.members);
    if DistinctSpellings(e.table.members) {
      TableRebuilt(e.table.members, e.rows);
    }
  }

  lemma {:induction false} AllLoadedHaveArrived(r: Outcome, i: nat, exports: seq<Export>)
    requires AllReadable(exports) && TablesLoaded(r, i, exports) && i + 3 * |exports| <= Applied(r)
    ensures AllArrived(r.db, exports)
    decreases |exports|
  {
    if exports != [] {
      LoadedHasArrived(r.db, exports[0]);
      AllLoadedHaveArrived(r, i + 3, exports[1..]);
    }
  }

  /** None of the commands is one that the server reads as a statement about tables. */
  predicate OnlyProcedures(commands: seq<string>) {
    commands == [] || (Parse(commands[0]).None? && OnlyProcedures(commands[1..]))
  }

  /** The server takes all of these. */
  predicate AllTaken(commands: seq<string>, procedures: set<string>) {
    commands == [] || (commands[0] in procedures && AllTaken(commands[1..], procedures))
  }

  lemma {:induction false} ExecutingProcedure(db: Database, world: World, command: string)
    requires Parse(command).None?
    ensures Execute(db, world, command) == if command in world.procedures then Some(db) else None
  {
  }

  /** Procedure commands change no table, and their run fails exactly at a fault or a command the server refuses. */
  lemma {:induction false} ProceduresKeepTables(
      db: Database, world: World, faults: set<nat>, commands: seq<string>, i: nat)
    requires i <= |commands| && OnlyProcedures(commands[i..])
    ensures Run(db, world, faults, commands, i).db == db
    ensures Run(db, world, faults, commands, i).failed
       <==> FaultAhead(faults, i, |commands|) || !AllTaken(commands[i..], world.procedures)
    decreases |commands| - i
  {
    if i < |commands| {
      assert commands[i..][0] == commands[i] && commands[i..][1..] == commands[i + 1..];
      ExecutingProcedure(db, world, commands[i]);
      ProceduresKeepTables(db, world, faults, commands, i + 1);
      FaultHereOrAhead(faults, i, |commands|);
    }
  }

  lemma {:induction false} FaultBeforeOrBehind(faults: set<nat>, i: nat, m: nat, n: nat)
    requires i <= m <= n
    ensures FaultAhead(faults, i, n) <==> FaultAhead(faults, i, m) || FaultAhead(faults, m, n)
  {
    if FaultAhead(faults, i, n) {
      var f :| f in faults && i <= f < n;
      assert i <= f < m || m <= f < n;
    }
  }

  /**
   The connection breaks at one of the commands, or the server refuses one: a command that defines procedures, the
   CREATE of a table that it cannot make, or a LOAD from a directory that is not usable.
   */
  predicate SomethingStops(
      procedures: set<string>, faults: set<nat>, tempdir: string, scripts: seq<string>, exports: seq<Export>)
  {
    || FaultAhead(faults, 0, |ScriptCommands(scripts)| + 3 * |exports|)
    || !AllTaken(ScriptCommands(scripts), procedures)
    || SomeRefused(exports, UsableDirectory(tempdir))
  }

  /** What is claimed of a run r of the upload. */
  ghost predicate Uploaded(
      db: Database, r: Outcome, procedures: set<string>, faults: set<nat>,
      tempdir: string, scripts: seq<string>, exports: seq<Export>)
    requires AllReadable(exports)
  {
    && (!r.failed ==> AllArrived(r.db, exports))
    && (OnlyProcedures(ScriptCommands(scripts)) ==> OthersKept(db, r.db, exports))
    && (OnlyProcedures(ScriptCommands(scripts)) ==>
          (r.failed <==> SomethingStops(procedures, faults, tempdir, scripts, exports)))
  }

  lemma {:induction false} RunUploads(
      db: Database, files: map<string, string>, procedures: set<string>, faults: set<nat>,
      tempdir: string, scripts: seq<string>, exports: seq<Export>)
    requires AllReadable(exports) && DistinctTables(exports) && DirectoryIsKnown(files, tempdir, exports)
    ensures AllExportable(exports)
    ensures Uploaded(db,
      Run(db, World(FilesAfter(files, tempdir, exports), procedures), faults,
          ScriptCommands(scripts) + AllCommands(tempdir, exports), 0),
      procedures, faults, tempdir, scripts, exports)
  {
    UploadIsSafe(db, files, procedures, faults, tempdir, scripts, exports);
    CommandCount(tempdir, exports);
    var world, before := World(FilesAfter(files, tempdir, exports), procedures), ScriptCommands(scripts);
    var start := Run(db, world, faults, before, 0);
    var r := Run(db, world, faults, before + AllCommands(tempdir, exports), 0);
    if !r.failed {
      AllLoadedHaveArrived(r, |before|, exports);
    }
    if OnlyProcedures(before) {
      assert before[0..] == before;
      ProceduresKeepTables(db, world, faults, before, 0);
      FaultBeforeOrBehind(faults, 0, |before|, |before| + 3 * |exports|);
      KeptByNone(db, exports);
    }
  }

  /** Some script closes with an odd number of directives, each right behind the one before. */
  predicate SomeCloseOdd(scripts: seq<string>) {
    scripts != [] && (ClosingRun(scripts[0]) % 2 == 1 || SomeCloseOdd(scripts[1..]))
  }

  lemma {:induction false} ThrowingScript(scripts: seq<string>)
    ensures SomeCloseOdd(scripts) <==> exists script :: script in scripts && ParseFrom(script, 0).thrown
  {
    if scripts != [] {
      ThrowsAtTheEnd(scripts[0]);
      ThrowingScript(scripts[1..]);
      assert scripts[0] in scripts;
      assert forall script :: script in scripts <==> script == scripts[0] || script in scripts[1..];
    }
  }

  /** `OutputData` and its `init`: all commands and all files, unless a script makes the splitter throw. */
  method Prepare(files: map<string, string>, tempdir: string, scripts: seq<string>, exports: seq<Export>)
    returns (ok: bool, commands: seq<string>, written: map<string, string>)
    requires AllExportable(exports)
    ensures ok <==> !SomeCloseOdd(scripts)
    ensures ok ==> commands == ScriptCommands(scripts) + AllCommands(tempdir, exports)
    ensures ok ==> written == FilesAfter(files, tempdir, exports)
  {
    var disk := new Disk();
    disk.files := files;
    var data := new OutputData(tempdir, disk);
    ok := data.GenerateCommands(scripts, exports);
    commands, written := data.uploadCommands, disk.files;
    ThrowingScript(scripts);
    assert [] + ScriptCommands(scripts) == ScriptCommands(scripts);
  }

  /** Connecting and sending; earlier is the error text so far. */
  method ConnectAndSend(
      db: Database, world: World, faults: set<nat>, reachable: bool, complaint: string, earlier: string,
      commands: seq<string>)
    returns (error: string, after: Database)
    ensures !reachable ==> error == earlier + complaint + "\r\n" && after == db
    ensures reachable && earlier != "" ==> error == earlier && after == db
    ensures reachable && earlier == "" ==>
      var r := Run(db, world, faults, commands, 0);
      after == r.db && error == if r.failed then complaint + "\r\n" else ""
  {
    var latch := new ErrorLatch();
    latch.text := earlier;
    var session := new Session(db, world, faults, reachable, complaint, latch);
    ExecuteAll(commands, session, latch);
    error, after := latch.text, session.db;
  }

  lemma {:induction false} UploadedOr(
      db: Database, r: Outcome, started: bool, error: string, after: Database,
      procedures: set<string>, faults: set<nat>, tempdir: string, scripts: seq<string>, exports: seq<Export>)
    requires AllReadable(exports) && Uploaded(db, r, procedures, faults, tempdir, scripts, exports)
    requires if started then after == r.db && (error != "" <==> r.failed) else error != "" && after == db
    ensures error == "" ==> AllArrived(after, exports)
    ensures OnlyProcedures(ScriptCommands(scripts)) ==>
      (error == "" <==> started && !SomethingStops(procedures, faults, tempdir, scripts, exports))
    ensures OnlyProcedures(ScriptCommands(scripts)) ==> OthersKept(db, after, exports)
  {
    KeptByNone(db, exports);
  }

  /**
   `output`, started with these tables on the server, these files, and this error text. A script that makes the splitter
   throw ends it before anything is sent.
   */
  method Output(
      db: Database, files: map<string, string>, procedures: set<string>, faults: set<nat>, reachable: bool,
      complaint: string, earlier: string, tempdir: string, scripts: seq<string>, exports: seq<Export>)
    returns (thrown: bool, error: string, after: Database)
    requires AllReadable(exports) && DistinctTables(exports) && DirectoryIsKnown(files, tempdir, exports)
    ensures thrown <==> SomeCloseOdd(scripts)
    ensures thrown || earlier != "" || !reachable ==> after == db
    ensures thrown ==> error == earlier
    ensures !thrown && !reachable ==> error == earlier + complaint + "\r\n"
    ensures !thrown && reachable && earlier != "" ==> error == earlier
    ensures !thrown && reachable && earlier == "" ==> error in {"", complaint + "\r\n"}
    ensures !thrown && OnlyProcedures(ScriptCommands(scripts)) ==>
      (error == "" <==> earlier == "" && reachable && !SomethingStops(procedures, faults, tempdir, scripts, exports))
    ensures !thrown && error == "" ==> AllArrived(after, exports)
    ensures OnlyProcedures(ScriptCommands(scripts)) ==> OthersKept(db, after, exports)
  {
    ReadableNames(exports);
    var ok, commands, written := Prepare(files, tempdir, scripts, exports);
    if !ok {
      KeptByNone(db, exports);
      return true, earlier, db;
    }
    thrown := false;
    ghost var world := World(written, procedures);
    error, after := ConnectAndSend(db, World(written, procedures), faults, reachable, complaint, earlier, commands);
    RunUploads(db, files, procedures, faults, tempdir, scripts, exports);
    UploadedOr(db, Run(db, world, faults, commands, 0), earlier == "" && reachable, error, after,
               procedures, faults, tempdir, scripts, exports);
  }
}
