# A verified model of drpdb

drpdb reads the debug symbols of a Windows program (a PDB file, through the DIA library) into some forty tables and
sends the tables to a MySQL server: for every table it writes a text file of rows and a DROP, a CREATE TABLE and a LOAD
DATA command, and then it sends the commands one by one. The repository also holds the client headers of MySQL
Connector/C, whose inline code drpdb is compiled with.

The model follows the code through three layers.

* **Export.** One list of struct members drives three text generators: the row writer, the column list of CREATE TABLE,
  and the load list with its SET clause. The list is arbitrary here (any names, types, key kinds, descriptions), up to
  the exact conditions below. The other side is modelled independently of the generators: a reader of the file dialect, a
  lexer and parser of the SQL that is sent, and a server that executes it on tables with typed columns. The main theorem,
  `UploadRebuildsTables`, runs through all of these: rows in, files and commands out, tables back, the same rows. The
  method `UploadEngine.Output` puts the loops and classes of the program together and is proved to have that effect.
* **Import.** `Dia2SymbolProvider` is a class whose methods grow the tables of `SymbolData`. Its invariants are stated
  over every run, that is every sequence of symbols, lines and source files, and every table is shown to be a
  query on what was read. `ImportReachesServer` joins import and export: it says which symbols, once read, make the
  table `symbols` arrive on the server as it was collected.
* **Utilities.** Text replacement, escaping, script splitting, batched enumeration, the `-doc` command, and from the
  client headers `skip_trailing_space` in both its forms, the byte-order codec and deadlines.

## What the proofs found

Where the code does not do what its callers would expect, the exact condition is proved and the code is left as it is.

* `LOAD DATA` names the file that was written exactly when `-tempdir` ends in a slash and is not a lone slash: only the
  command adds a separator of its own, and behind a lone slash that makes a network path (`LoadFindsTheFile`). The
  default directory ends in a slash. From any other directory no LOAD finds the file of any table, and the upload stops
  at the first one (`LoadMisses`, `UploadIsSafe`).
* A `'` in `-tempdir` breaks the path literal, which doubles backslashes only (`DirectoryDecodes`).
* Descriptions double `'` only. The server reads one to its end exactly when no backslash in it takes a quote or the end
  of the text; backslashes then become escape sequences of the comment (`DescriptionIsRead`), and the comment is the
  description exactly when each of them stands in front of `%` or `_` (`DescriptionSurvives`).
* The list of a struct is accepted exactly when its *column* names differ in more than case, at most one key is primary,
  and that one is not on a string, which is wider than a MyISAM key may be (`CreateWorksExactly`). Distinct member names
  do not suffice, because an `address_info` is renamed (`AddressMayCollide`) and the server does not tell `tag` from `Tag`
  (`CaseMayCollide`). A `bool` or an `address_info` never becomes a key, and an ENUM column loses its description.
* Rows come back exactly when strings have at most 2047 characters, enumeration values are among the enumerators, and
  no two rows agree on the primary key (`TableRebuilt`; what is lost otherwise: `LongStringIsCut`, `UnlistedCodeIsLost`,
  `SecondKeyIsSkipped`). An unlisted enumeration value is written as an empty string.
* An upload whose scripts only define procedures ends without an error text exactly when none stood before, the server is
  reached, no command meets a fault, and the server takes every procedure command, every CREATE, and the directory
  (`Output`). However it ends, each table whose LOAD took effect holds just its rows, and no LOAD is sent whose DROP and
  CREATE were not taken (`UploadIsSafe`, `LoadsFollowTheirTables`).
* The rows of `symbols` arrive as they were collected exactly when the ids read are distinct and not 0, names have at most
  2047 characters, and tags and location types, cut to eight bits, are listed (`SymbolsArrive`). The sentinel row has
  the id 0, so a symbol with that id is skipped (`IdZeroIsLost`).
* Flags need the detour over `@tmp_` variables: read straight into BIT(1), the texts 0 and 1 both store 1
  (`FlagReadDirectly`, `FlagThroughVariable`).
* `ParseProcedure` passes an end position where `substr` takes a count. On a script with a newline behind each directive
  its commands are the parts of the script exactly for at most one directive (`ProcedureCommands`).
* The search for the next directive goes on one character behind the last, so it misses a directive that touches the one
  before. On a script that does not throw there is one command more than directives exactly when no two of them touch
  (`OneMoreThanDirectives`), and `substr` throws exactly on a script that closes with an odd number of directives, each
  right behind the one before (`ThrowsAtTheEnd`). A script of two touching directives ends with one and does not throw
  (`TouchingDirectives`).
* Symbol tags are cut to eight bits in the symbol table. Ids are conserved exactly when no larger tag is cut to the tag of
  the table (`ImportConserves`); the tag 0x105 is one (`AliasIsNotConserved`).
* A compiland-details record changes the last compiland row with the id of its lexical parent, whatever its class parent
  (`DetailsHitTheirCompiland`, `LexicalParentDecides`). If that compiland was not read yet it changes row 0, and it has no
  defined effect while there are no rows (`RunIsDefined`, `DetailsComeTooEarly`).
* The loop of `ReadSource` over compilands stops at the first status that is not `S_OK`. Under the usual COM contract, by
  which a short batch comes with `S_FALSE`, the short batch is lost (`LastBatchIsLost`).
* Ids of source ranges start over at 2^32 (`RangeIds`, `IdsStartOver`). A user type without a definition line keeps
  `src_line` 0, which is also the id of the first range.
* `cmp_timespec` compares by total nanoseconds exactly the normalised times (`ComparingNeedsNormalTimes`). A delay in
  seconds is honoured exactly when neither its nanoseconds nor the sum of ticks reaches 2^64 (`DelayInSeconds`,
  `DelaysThatRunOver`).

## Reading the files

| files | source |
|---|---|
| `StringUtils`, `Decimal`, `Powers` | drpdb/src/stringutils.h, number formatting, powers of two |
| `Reflection`, `CsvWriter` | drpdb/src/PDBReflection.inl, CSVWriter.h, CSVOutput.cpp |
| `LoadDialect`, `CsvRoundTrip` | the file dialect named at drpdb/src/MySQLOutput.cpp:121, and the round trip of data files |
| `Schema` | drpdb/src/SQL.cpp, SQLSchemaWriter.h |
| `SqlLiterals`, `SqlText`, `SqlParser` | SQL string literals, tokens and statements, as the server reads them |
| `SchemaPieces`, `SchemaRoundTrip`, `CreateRoundTrip`, `LoadRoundTrip` | what is parsed from the generated commands |
| `Server`, `TableRoundTrip` | the server, and what it stores |
| `Directives`, `Procedures`, `Upload`, `UploadSafety`, `UploadOrder`, `UploadEngine` | drpdb/src/MySQLOutput.cpp, the error latch, and all runs of the upload |
| `Enumerators`, `Import`, `ImportRuns` | drpdb/src/DIACommon.h, DIA2Input.cpp, drpdb.h |
| `SymbolTransfer` | the table `symbols` of drpdb/src/PDBReflection.inl, from the import to the server |
| `Documenter` | drpdb/src/DIA2Doc.cpp |
| `ByteOrder`, `TrailingSpace`, `Timespec` | the client headers |

Strings are sequences of characters, one for each byte of a `std::string`. Numbers are unbounded; the ranges and
wrap-arounds of the C types are written out where they matter. `long` has 32 bits, as on Windows.

## Model

| member | source | states |
|---|---|---|
| StringUtils.Escape | drpdb/src/stringutils.h:2-27 | the loop that inserts into the string it scans ends, and leaves the expansion of each character on its own |
| StringUtils.UnescapeEscaped | drpdb/src/stringutils.h:2-27 | dropping the inserted backslashes returns the original, for every string and every separator |
| StringUtils.ClosingQuoteIsFirst | drpdb/src/stringutils.h:2-27 | in an escaped string with a quote behind it, that quote is the first one without a backslash |
| StringUtils.NeverBare | drpdb/src/stringutils.h:9-23 | after escaping, a character other than the backslash never stands without one in front of it if and only if it is the quote, the separator, or not in the string |
| StringUtils.EscapedLength | drpdb/src/stringutils.h:9-23 | the string grows by one for each position that holds a quote, a backslash or the separator |
| StringUtils.EscapedIsShortest | drpdb/src/stringutils.h:2-27 | of all texts that unescape to the string and hold no bare quote and no bare separator, the loop leaves the shortest, and it is the only one of that length |
| StringUtils.Replace | drpdb/src/stringutils.h:28-37 | the find-and-replace loop ends for every non-empty search string, even if the replacement contains it, with every leftmost match replaced |
| StringUtils.FindIsLeftmost | drpdb/src/stringutils.h:31 | a search result is a match, no earlier match exists, and without a result there is none |
| StringUtils.ReplaceIsSplitJoin | drpdb/src/stringutils.h:28-37 | replacing is the same as splitting at leftmost non-overlapping matches and joining with the replacement |
| StringUtils.SplitIsExact | drpdb/src/stringutils.h:28-37 | joining the split pieces with the search string gives the subject back, and no piece contains a match, so splitting loses nothing and misses nothing |
| StringUtils.SplitIsLeftmost | drpdb/src/stringutils.h:31 | a piece with the search string behind it holds no match before its end, so each cut is at the first match that is left |
| StringUtils.ReplaceOneChar | drpdb/src/stringutils.h:28-37 | for a search string of one character, replacing acts on each character on its own |
| Decimal.ParsePrinted | drpdb/src/CSVOutput.cpp:104-145 | decimal printing of any integer is undone by decimal parsing |
| Decimal.PrintedIsShortest | drpdb/src/CSVOutput.cpp:104-145 | every text that is read as the number is at least as long as the printed one, and no other text is as short: no leading zeros, no needless sign |
| CsvWriter.Writer.Backup | drpdb/src/CSVOutput.cpp:92-95 | takes back exactly the last character |
| CsvWriter.Writer.WriteNumber | drpdb/src/CSVOutput.cpp:104-145 | appends the printed number, which PrintedIsShortest pins, and one separator |
| CsvWriter.Writer.WriteString | drpdb/src/CSVOutput.cpp:150-158 | appends the escaped text between quotes and one separator |
| CsvWriter.Writer.WriteBool | drpdb/src/CSVOutput.cpp:159-170 | appends the digit or the word for the flag, as the bit-type setting says, and one separator |
| CsvWriter.Writer.WriteEnum | drpdb/src/CSVWriter.h:49-51 | appends the quoted spelling of the value, or two quotes when no case lists it, and one separator |
| CsvWriter.Writer.WriteStruct | drpdb/src/CSVWriter.h:45-47 | appends every member of the row in list order, each behind the one before |
| CsvWriter.Writer.PopulateTable | drpdb/src/MySQLOutput.cpp:157-169 | appends one line for each row, in order, without the last separator |
| CsvRoundTrip.ReadFieldBack | drpdb/src/CSVOutput.cpp:104-170 | a field written by any of the operators is read under the file dialect as one field holding the text it stands for, and reading stops right behind it |
| CsvRoundTrip.ReadLineBack | drpdb/src/CSVOutput.cpp:57-63 | a written line is read as exactly the fields of its row, whatever quotes, separators or newlines the strings hold |
| CsvRoundTrip.ReadFileBack | drpdb/src/MySQLOutput.cpp:157-169 | a written file is read as exactly the fields of all rows in order |
| CsvRoundTrip.CodeOfName | drpdb/src/CSVWriter.h:49-51 | an enumeration value is found again from its spelling exactly when the `switch` lists it |
| CsvRoundTrip.FileRoundTrip | drpdb/src/CSVOutput.cpp:49-73 | reading the written file gives the rows back if and only if every enumeration value is listed |
| CsvRoundTrip.FileTextIsInjective | drpdb/src/CSVOutput.cpp:49-73 | two tables with the same file text have the same rows |
| CsvRoundTrip.FlagIsWordOrDigit | drpdb/src/CSVOutput.cpp:159-170 | the text of a flag is a number if and only if bit types are asked for, and in both forms it is read as that flag |
| Schema.SchemaWriter.constructor | drpdb/src/SQL.cpp:6-13 | the load list opens its parenthesis only with bit types, all else is empty |
| Schema.SchemaWriter.ColumnDesc | drpdb/src/SQL.cpp:14-34 | grows the column list, the key list and the load list by this column together and leaves the SET clause |
| Schema.SchemaWriter.ColumnComment | drpdb/src/SQL.cpp:35-42 | appends the description with its quotes doubled and a comma |
| Schema.SchemaWriter.WriteBool | drpdb/src/SQL.cpp:61-95 | a flag adds a column and, with bit types, its variable to the load list and one assignment to the SET clause, but no key |
| Schema.SchemaWriter.WriteEnumeration | drpdb/src/SQLSchemaWriter.h:45-47 | adds an ENUM column listing every enumerator in order, the last comma popped |
| Schema.SchemaWriter.WriteCell | drpdb/src/SQL.cpp:43-95 | each member grows the four texts by its own share; an `address_info` does so as a renamed number without a key |
| Schema.SchemaWriter.WriteStruct | drpdb/src/SQLSchemaWriter.h:49-52 | after the whole list the four texts hold the shares of all members in order |
| SqlLiterals.DescriptionIsRead | drpdb/src/SQL.cpp:35-42 | the literal of a description with doubled quotes is read to its end if and only if no backslash takes a quote or the end, and then as the description with its escape sequences resolved |
| SqlLiterals.DescriptionSurvives | drpdb/src/SQL.cpp:35-42 | a description with doubled quotes is decoded to itself if and only if each of its backslashes stands in front of `%` or `_` |
| SqlLiterals.PathSurvives | drpdb/src/MySQLOutput.cpp:110 | a directory with doubled backslashes in front of a literal is decoded to itself if and only if it holds no quote |
| SqlText.LexRender | drpdb/src/MySQLOutput.cpp:114-153 | text put together from well-spaced words, signs and literals is cut by the lexer into just these |
| SchemaRoundTrip.ParseItemsBack | drpdb/src/SQL.cpp:14-95 | a comma-separated list of column and key entries is parsed into these entries in order, with nothing left but what stood behind it |
| CreateRoundTrip.ParseCreateBack | drpdb/src/MySQLOutput.cpp:127-153 | the CREATE TABLE command of any member list is well formed after its comma is popped, and the server reads from it the columns in member order, one key entry for each keyed member, and the descriptions as comments |
| CreateRoundTrip.LexCreate | drpdb/src/MySQLOutput.cpp:134-148 | the tokens of that command, with exactly one comma between entries and none behind the last |
| LoadRoundTrip.ParseTargetsBack | drpdb/src/SQL.cpp:28-32 | the load list is parsed into the targets in member order |
| LoadRoundTrip.ParseLoadBack | drpdb/src/MySQLOutput.cpp:114-126 | from the LOAD DATA command of any member list the server reads the decoded path, the table, the three dialect characters, the targets in member order and one assignment for each flag |
| LoadRoundTrip.ParseDropBack | drpdb/src/MySQLOutput.cpp:131 | the DROP command is read as a drop of that table |
| TableRoundTrip.TableIsCreated | drpdb/src/MySQLOutput.cpp:127-153 | the server makes the table, columns in member order, if and only if column names differ in more than case, at most one key is primary, and that one is not on a string |
| TableRoundTrip.LoadListFollowsColumns | drpdb/src/SQL.cpp:26-32 | entry i of the load list is column i of the table, or for a flag the variable named after it |
| TableRoundTrip.FlagsAreAssignedOnce | drpdb/src/SQL.cpp:76-87 | the SET clause assigns to the column of each flag exactly once, from its variable, and to no other column |
| TableRoundTrip.FieldOfMember | drpdb/src/SQL.cpp:28-32 | with distinct column names, field i of a line goes to the target of member i |
| TableRoundTrip.NumberFits | drpdb/src/SQL.cpp:45-58 | every number of the C++ type of a member fits its column type without clamping |
| TableRoundTrip.FlagThroughVariable | drpdb/src/SQL.cpp:71-87 | a flag read into the variable and cast arrives in its BIT(1) column as it was |
| TableRoundTrip.FlagReadDirectly | drpdb/src/SQL.cpp:68 | read straight into BIT(1), both flags would arrive as 1 |
| TableRoundTrip.CellOfMember | drpdb/src/MySQLOutput.cpp:171-178 | the cell that loading stores in column i stands for the value of member i, for every member type |
| TableRoundTrip.RowsAreStored | drpdb/src/MySQLOutput.cpp:171-178 | the rows that the generated load clause makes of the written fields are the stored forms of the exported rows |
| TableRoundTrip.InsertKeepsAll | drpdb/src/MySQLOutput.cpp:121-123 | loading keeps all rows if and only if each brings a new primary key, and then in order |
| TableRoundTrip.TableRebuilt | drpdb/src/MySQLOutput.cpp:171-178 | the loaded table gives the exported rows back, all and in order, if and only if strings fit, enumeration values are listed and primary keys differ |
| TableRoundTrip.LongStringIsCut | drpdb/src/SQL.cpp:50 | one string of 2048 characters: the row does not come back |
| TableRoundTrip.UnlistedCodeIsLost | drpdb/src/CSVWriter.h:49-51 | one code without a spelling: the row does not come back |
| TableRoundTrip.SecondKeyIsSkipped | drpdb/src/SQL.cpp:14-20 | two rows with one primary key: the table holds only the first |
| Procedures.ThrowsAtTheEnd | drpdb/src/MySQLOutput.cpp:194-206 | the splitter throws if and only if the script closes with an odd number of directives, each right behind the one before |
| Procedures.OneMoreThanDirectives | drpdb/src/MySQLOutput.cpp:194-206 | on a script that does not throw there are at most one more commands than positions with a directive, and one more if and only if no two directives touch |
| Procedures.TouchingDirectives | drpdb/src/MySQLOutput.cpp:202-203 | two touching directives: the text ends with one, nothing is thrown, and there are two commands |
| Procedures.CommandsAreSegments | drpdb/src/MySQLOutput.cpp:194-206 | every command starts with the text between two stops of the search, the first and the last are just that text, and all are if and only if the search stopped at most once |
| Procedures.CommandsAreCut | drpdb/src/MySQLOutput.cpp:194-206 | each segment stands where the one before and its directive end; its command starts there and holds as many characters as the whole text has in front of the next directive, or all that are left |
| Procedures.SegmentsAreFree | drpdb/src/MySQLOutput.cpp:194-206 | no text between two stops of the search holds a directive |
| Procedures.ProcedureCommands | drpdb/src/MySQLOutput.cpp:194-206 | with a newline behind each directive nothing is thrown and there is one command more than directives; the script is parts without directives joined by the directive lines, the first and last command are the first and last part, all start with theirs, and all are their parts if and only if there is at most one directive |
| Procedures.CountIsEndPosition | drpdb/src/MySQLOutput.cpp:201 | the pushed command starts with the segment, and is the segment if and only if the segment starts the script |
| Procedures.SegmentsRebuild | drpdb/src/MySQLOutput.cpp:194-206 | joining the texts between the stops with directive and newline rebuilds the script if and only if a newline follows each directive |
| Procedures.OneDirectiveRebuilds | drpdb/src/MySQLOutput.cpp:194-206 | a script with one directive is rebuilt from its two commands |
| Upload.OutputData.constructor | drpdb/src/MySQLOutput.cpp:99-112 | the directory is kept once as given and once with doubled backslashes and one more |
| Upload.OutputData.LoadTable | drpdb/src/MySQLOutput.cpp:114-126 | pushes one LOAD DATA command for the table |
| Upload.OutputData.CreateTable | drpdb/src/MySQLOutput.cpp:127-153 | pushes the DROP and the CREATE of the table and hands back its load list and SET clause |
| Upload.OutputData.PopulateTable | drpdb/src/MySQLOutput.cpp:156-169 | writes the rows to the file of the table and changes no other file |
| Upload.OutputData.BuildTable | drpdb/src/MySQLOutput.cpp:171-178 | pushes exactly the triple of the table and writes exactly its file |
| Upload.OutputData.ParseProcedure | drpdb/src/MySQLOutput.cpp:194-206 | the loop ends, pushes the commands of the script and reports the throw |
| Upload.ScriptsInOrder | drpdb/src/MySQLOutput.cpp:207-224 | the commands of a script stand behind those of the scripts before it and in front of those of the scripts behind it |
| Upload.OutputData.GenerateProcedures | drpdb/src/MySQLOutput.cpp:207-224 | pushes the commands of all scripts in order, unless one throws |
| Upload.OutputData.GenerateCommands | drpdb/src/MySQLOutput.cpp:225-231 | procedure commands come first, then one triple for each table; one file is written for each table |
| Upload.ErrorLatch.SetError | drpdb/src/drpdb.cpp:113-117 | any message, an empty one too, leaves an error that stays |
| Upload.Session.constructor | drpdb/src/MySQLOutput.cpp:17-33 | a failed connection appends what the client library says to the error text, a made one leaves it |
| Upload.Session.Send | drpdb/src/MySQLOutput.cpp:34-51 | one command is sent; exactly when it fails the error text grows by what the client library says, and then the tables stay as they were |
| Upload.ExecuteAll | drpdb/src/MySQLOutput.cpp:238-251 | what is sent is a prefix of the commands, none of it after an earlier error, and it stops right behind the first command that fails |
| UploadSafety.LoadFindsTheFile | drpdb/src/MySQLOutput.cpp:110-159 | the command names the written file if and only if the directory ends in a slash and is not a lone slash |
| UploadSafety.DirectoriesThatMiss | drpdb/src/MySQLOutput.cpp:110-159 | for a directory without a slash at its end and for a lone slash, the two paths name different files |
| UploadSafety.LoadMisses | drpdb/src/MySQLOutput.cpp:110-159 | from any other directory the command of a table names the written file of no table at all |
| UploadSafety.DirectoryDecodes | drpdb/src/MySQLOutput.cpp:110-119 | the path literal is decoded to the directory, a backslash and the file name if and only if the directory holds no quote |
| UploadSafety.CreateWorksExactly | drpdb/src/MySQLOutput.cpp:127-153 | the server accepts the CREATE of a table that is not there if and only if column names differ in more than case, at most one key is primary, and that one is not on a string |
| UploadSafety.AddressMayCollide | drpdb/src/SQL.cpp:53-60 | two members of different names whose columns collide |
| UploadSafety.CaseMayCollide | drpdb/src/SQL.cpp:14-34 | two members whose names differ only in case: their columns collide |
| UploadSafety.LoadFillsTable | drpdb/src/MySQLOutput.cpp:171-178 | reading the written file through the generated load list and SET clause turns the created, empty table into the loaded one |
| UploadSafety.TripleWorks | drpdb/src/MySQLOutput.cpp:171-178 | from any tables, the server takes the DROP; it takes the CREATE if and only if it can make the table, which is then empty; and then the LOAD if and only if the directory is usable, which leaves the table filled and the others as before |
| UploadSafety.FilesAreThere | drpdb/src/MySQLOutput.cpp:225-231 | after all tables are written, the file of each one holds its rows: no table overwrites the file of another |
| UploadSafety.WrittenFilesAreKnown | drpdb/src/MySQLOutput.cpp:156-169 | after all tables are written, each LOAD finds just the rows of its table, or none finds a file, as the directory is usable or not |
| UploadSafety.RunTables | drpdb/src/MySQLOutput.cpp:238-251 | every run over the table commands stops only at a connection fault, a CREATE that the server cannot make, or a LOAD from an unusable directory; it fails if and only if there is one; it fills each table whose LOAD took effect, and leaves other tables alone |
| UploadSafety.RunThrough | drpdb/src/MySQLOutput.cpp:245-250 | a run over a longer list is the run over a prefix and, unless that failed, the run over the rest |
| UploadSafety.UploadIsSafe | drpdb/src/MySQLOutput.cpp:238-251 | the same for whole uploads, from any tables, with any scripts and faults, any directory without a quote, and whatever member lists the server refuses |
| UploadSafety.UploadRebuildsTables | drpdb/src/MySQLOutput.cpp:114-251 | end to end: after an upload without error every table has the columns of its member list in order, and its rows stand for the exported rows if and only if these fit and have distinct primary keys |
| UploadOrder.TablesInTriples | drpdb/src/MySQLOutput.cpp:171-178 | the server reads the table commands as consecutive triples of a DROP, a CREATE and a LOAD of one table, in table order |
| UploadOrder.LoadsFollowTheirTables | drpdb/src/MySQLOutput.cpp:238-251 | in every run, however it ends and whatever lists the server refuses, a LOAD that was sent follows directly on the DROP and the CREATE of its own table, both of which took effect |
| UploadEngine.Output | drpdb/src/MySQLOutput.cpp:238-251 | the whole engine as a program: it throws if and only if a script closes with an odd number of touching directives, and then sends nothing and leaves the error text; when it ends without an error text every table has arrived, its rows standing for the exported ones if and only if these fit and have distinct primary keys; when the scripts only define procedures, tables that are not exported are kept, and there is no error text if and only if there was none, the server was reached, no command met a fault, the server took every procedure command and can make every table, and the directory is usable |
| UploadEngine.ConnectAndSend | drpdb/src/MySQLOutput.cpp:243-250 | without a connection, or after an earlier error, nothing is changed and the error text stands, with a line more for the connection; else the tables are those of the run, and the error text is one line if the run failed and empty if not |
| UploadEngine.Prepare | drpdb/src/MySQLOutput.cpp:58-113 | all commands and all data files, unless a script makes the splitter throw |
| UploadEngine.ProceduresKeepTables | drpdb/src/MySQLOutput.cpp:245-250 | a run over commands that only define procedures changes no table, wherever it stops, and fails if and only if it meets a fault or a command that the server refuses |
| Enumerators.ReadTable | drpdb/src/DIACommon.h:22-43 | the receiver gets the elements of all batches in order, up to the first failure or empty batch |
| Enumerators.BatchingIsInvisible | drpdb/src/DIACommon.h:22-43 | for an enumerator that does not fail and has batches until its end, that is every element once and in order, whatever the batch sizes |
| Enumerators.DeliveredIsPrefix | drpdb/src/DIACommon.h:35-36 | whatever the enumerator does, the elements delivered are a prefix of all its elements |
| Enumerators.NothingBehindAStop | drpdb/src/DIACommon.h:29-40 | all batches before the first failure or empty batch are delivered, and nothing of that answer or behind it |
| Enumerators.AllRecorded | drpdb/src/DIA2Input.cpp:1302-1319 | the loop over `S_OK` batches misses nothing when `S_OK` marks exactly the non-empty batches |
| Enumerators.NothingBehindNotOk | drpdb/src/DIA2Input.cpp:1302-1319 | all batches before the first answer that is not `S_OK` are recorded, and nothing of that answer or behind it |
| Enumerators.LastBatchIsLost | drpdb/src/DIA2Input.cpp:1302-1319 | under the COM contract for `Next` with 64 elements, all elements are recorded if and only if their number is a multiple of 64 |
| Import.Dia2SymbolProvider.ReadLines | drpdb/src/DIA2Input.cpp:1290-1293 | one range is added whose id is the number of ranges before it; nothing else changes |
| Import.Dia2SymbolProvider.ReadSource | drpdb/src/DIA2Input.cpp:1294-1321 | one source file with its id and name, and one inclusion for each compiland that its enumerator gave with `S_OK` |
| Import.Dia2SymbolProvider.ReadUDTSymbol | drpdb/src/DIA2Input.cpp:1380-1394 | one user type, and if it has a definition line one range whose id the user type takes |
| Import.Dia2SymbolProvider.ReadCompilandSymbol | drpdb/src/DIA2Input.cpp:1403-1407 | one compiland, whose position the map takes for its id |
| Import.Dia2SymbolProvider.ReadCompilandDetailsSymbol | drpdb/src/DIA2Input.cpp:1396-1402 | the details of the row that the map gives for the lexical parent change and no other field of it; an id that is not in the map is entered with 0 |
| Import.Dia2SymbolProvider.ReadSymbol | drpdb/src/DIA2Input.cpp:1322-1378 | one symbol row, and the step of the table that its tag selects, if any |
| ImportRuns.ReadSymbols | drpdb/src/DIA2Input.cpp:1437-1451 | a provider that starts empty ends in the state of the run over what it was given |
| ImportRuns.SymbolsAreQuery | drpdb/src/DIA2Input.cpp:1330 | after every run the symbol table is the sentinel and one row for each symbol read, in order |
| ImportRuns.TypedAreQuery | drpdb/src/DIA2Input.cpp:1332-1375 | after every run each plain table holds one row for each symbol read with its tag, in order; ignored tags and details add none |
| ImportRuns.RangesAreQuery | drpdb/src/DIA2Input.cpp:1290-1394 | after every run the ranges are the lines read and the definition lines of user types, interleaved as they came, numbered from 0 |
| ImportRuns.CompilandsAreQuery | drpdb/src/DIA2Input.cpp:1403-1407 | after every run the compilands are those read, in order, whatever details came |
| ImportRuns.SourcesAreQuery | drpdb/src/DIA2Input.cpp:1294-1321 | after every run the source files are those read, in order, and the inclusions are theirs |
| ImportRuns.SentinelComesFirst | drpdb/src/drpdb.h:268-277 | after every run the symbol table has one row more than symbols were read, and the first has no name and all numbers 0 |
| ImportRuns.SymbolRowAt | drpdb/src/DIA2Input.cpp:646-674 | after every run the row of a symbol stands behind those of the symbols read before, with its name, id, size, class parent and lexical parent as read and its tag and location type modulo 256 |
| ImportRuns.TypedRowAt | drpdb/src/DIA2Input.cpp:1332-1375 | the same for each plain table: the row is made from that symbol and carries its own id, or the lexical parent for a compiland environment and the class parent for a base class |
| ImportRuns.CompilandAt | drpdb/src/DIA2Input.cpp:530-554 | the row of a compiland keeps its id, library, compiler and edit-and-continue flag through every run; its details are empty but for the code generation flag until a record hits it |
| ImportRuns.LastDetailsStay | drpdb/src/DIA2Input.cpp:556-644 | after every run the details of a row are those of the last record that hit it, the language modulo 256 |
| ImportRuns.SourceFileAt | drpdb/src/DIA2Input.cpp:518-529 | the row of a source file stands behind those of the files read before, with its unique id, and its name or an empty one |
| ImportRuns.InclusionAt | drpdb/src/DIA2Input.cpp:1298-1319 | the k-th compiland recorded for a source file makes the k-th of its inclusions, with that compiland and the id of the file in their columns |
| ImportRuns.InclusionsHaveSources | config/mysql/make_include_graph.sql:10-13 | every inclusion names a source file that is in the table of source files |
| ImportRuns.ImportConserves | drpdb/src/DIA2Input.cpp:1322-1378 | the ids in an id-carrying table are, as a multiset, those of the symbol rows with its tag if and only if no symbol had a larger tag that is cut to it |
| ImportRuns.ImportConservesOthers | drpdb/src/DIA2Input.cpp:1335-1344 | the same for user types and compilands |
| ImportRuns.AliasIsNotConserved | drpdb/src/DIA2Input.cpp:1330-1332 | one symbol with tag 0x105: its id is listed with the tag of functions, and no function is there |
| ImportRuns.JoinsAsOftenAsRead | config/mysql/function_overview.sql:10 | an id joins as many symbol rows as symbols were read with it, and the sentinel if it is 0 |
| ImportRuns.RowJoinsOnce | config/mysql/function_overview.sql:10 | a row of a table joins exactly one symbol row if and only if its id is not 0 and was read once |
| ImportRuns.RangeIds | drpdb/src/DIA2Input.cpp:1290-1293 | range ids are positions modulo 2^32, so they are positions if and only if there are at most 2^32 ranges |
| ImportRuns.IdsStartOver | drpdb/src/DIA2Input.cpp:1290-1293 | 2^32 + 1 lines: the first and the last range share the id 0 |
| ImportRuns.UserTypeKeepsItsLine | drpdb/src/DIA2Input.cpp:1380-1394 | a user type keeps the number of the range made from its own definition line, however much is read later; the number is the position if and only if fewer than 2^32 ranges came before |
| ImportRuns.UserTypeWithoutLine | drpdb/src/DIA2Input.cpp:1380-1394 | a user type without a definition line has the line 0 and makes no range |
| ImportRuns.LineAt | drpdb/src/DIA2Input.cpp:1290-1293 | a line makes the range behind those made before, numbered by their count modulo 2^32 |
| ImportRuns.RunKeepsMap | drpdb/src/DIA2Input.cpp:1396-1407 | invariant of every run: each recorded compiland id maps to the last row that has that id, and every other entry maps to row 0 |
| ImportRuns.RunIsDefined | drpdb/src/DIA2Input.cpp:1400 | no run indexes outside the compilands if and only if no details record comes before the first compiland |
| ImportRuns.DetailsHitTheirCompiland | drpdb/src/DIA2Input.cpp:1396-1402 | a details record changes the details of one row and nothing else; the row is the last one with the id of its lexical parent if that compiland was read before, else it is row 0 |
| ImportRuns.LexicalParentDecides | drpdb/src/DIA2Input.cpp:1398-1400 | compilands 7 and 8 and a record whose lexical parent is 8 and whose class parent is not: row 1 changes and row 0 does not |
| ImportRuns.DetailsComeTooEarly | drpdb/src/DIA2Input.cpp:1396-1402 | a details record that comes first indexes outside the compilands |
| SymbolTransfer.KeysAreIds | drpdb/src/DIA2Input.cpp:1330 | the symbol rows, the sentinel among them, have distinct ids if and only if the ids read are distinct and none is 0 |
| SymbolTransfer.SymbolsAreCreatable | drpdb/src/PDBReflection.inl:28-36 | the server can make the table of the symbols |
| SymbolTransfer.SymbolsArrive | drpdb/src/DIA2Input.cpp:646-674 | after every import the rows of the symbols come back from their table, all and in order, if and only if the ids read are distinct and not 0, names have at most 2047 characters, and tags and location types cut to eight bits are listed |
| SymbolTransfer.IdZeroIsLost | drpdb/src/drpdb.h:268-277 | a symbol read with the id of the sentinel: the rows do not come back |
| SymbolTransfer.ImportReachesServer | drpdb/src/MySQLOutput.cpp:225-251 | from import to server: after an upload without error, among any other tables, the table of the symbols stands for what the import collected under just these conditions |
| SymbolTransfer.LoadedHoldsSymbol | drpdb/src/PDBReflection.inl:28-36 | with distinct non-zero ids, the loaded row of a symbol stands behind those of the symbols read before, and under the name of each column is the value read: the class parent under `parent_symbol`, the lexical parent under `lexical_parent_symbol`, and so on |
| SymbolTransfer.ServerHoldsSymbol | drpdb/src/MySQLOutput.cpp:225-251 | so does the table on the server, after an upload without error among any other tables |
| Documenter.ApiTest.DefaultMeasure | drpdb/src/DIA2Doc.cpp:69-93 | a getter that works is on the list of the tag afterwards, once; all else stays |
| Documenter.ApiTest.Element | drpdb/src/DIA2Doc.cpp:97-322 | the list of the tag gains exactly the getters that work on this symbol and were not on it |
| Documenter.MeasureFiles | drpdb/src/DIA2Doc.cpp:345-350 | over any files, the list of each tag holds without repeats exactly the getters that worked on some symbol of the tag |
| Documenter.SymbolsOfFiles | drpdb/src/DIA2Doc.cpp:344-350 | the symbols measured are those of all files listed: one is among them if and only if it is in one of the files |
| Documenter.Document | drpdb/src/DIA2Doc.cpp:325-367 | the same for the files listed in the text and the program itself, with each list in strict `strcmp` order |
| Documenter.SortedIsInOrder | drpdb/src/DIA2Doc.cpp:357 | sorting a list without repeats keeps its set and puts it in strict order |
| Documenter.FirstDifferenceDecides | drpdb/src/DIA2Doc.cpp:357 | one name comes before another if and only if it has the smaller character where they first differ, or ends there |
| Documenter.OrderIsUnique | drpdb/src/DIA2Doc.cpp:357 | a set of names has one strictly ordered list, so the algorithm of the sort does not matter |
| Documenter.DocumentIgnoresOrder | drpdb/src/DIA2Doc.cpp:344-365 | the lists written depend on the symbols as a set: neither on their order nor on that of the files |
| Documenter.SplitLines | drpdb/src/DIA2Doc.cpp:327-338 | the line loop ends with the lines of the text |
| Documenter.LinesRebuild | drpdb/src/DIA2Doc.cpp:327-338 | no line holds a newline, and the lines with a newline behind each are the text, up to one newline at its end |
| Documenter.LinesAreUnique | drpdb/src/DIA2Doc.cpp:327-338 | no other list of newline-free lines has that text |
| ByteOrder.LoadsAreLittleEndian | mysql-connector-c-6.1.6-winx64/include/my_byteorder.h:45-75 | each unsigned load of 2, 3, 4, 5, 6 or 8 bytes is the base-256 sum, low byte first: nothing is lost in the C types on the way |
| ByteOrder.StoreThenLoad | mysql-connector-c-6.1.6-winx64/include/byte_order_generic.h:38-97 | storing a number in n bytes and loading it gives the number modulo 2^(8n), for each of these widths |
| ByteOrder.StoreLoaded | mysql-connector-c-6.1.6-winx64/include/byte_order_generic.h:46-97 | loading and storing gives the bytes back, so different bytes are different numbers |
| ByteOrder.SignedTwoBytes | mysql-connector-c-6.1.6-winx64/include/byte_order_generic.h:20-26 | the signed 2-byte load undoes the store of every 16-bit number |
| ByteOrder.SignedFourBytes | mysql-connector-c-6.1.6-winx64/include/byte_order_generic.h:28-36 | the same for 32 bits |
| ByteOrder.SignedEightBytes | mysql-connector-c-6.1.6-winx64/include/byte_order_generic.h:71-74 | the same for 64 bits |
| ByteOrder.SignedThreeBytes | mysql-connector-c-6.1.6-winx64/include/my_byteorder.h:31-43 | `sint3korr` undoes `int3store` for exactly the numbers from -2^23 to 2^23 - 1 |
| ByteOrder.OrOfParts | mysql-connector-c-6.1.6-winx64/include/my_byteorder.h:33-43 | the bytes that `sint3korr` joins by bitwise or share no bit, so the number is their sum, and its test of bit 7 is a comparison with 128 |
| ByteOrder.ThreeBytesAreSigned | mysql-connector-c-6.1.6-winx64/include/my_byteorder.h:31-43 | `sint3korr` gives the base-256 sum of the three bytes as a signed number of 24 bits |
| ByteOrder.HalvesOfEight | mysql-connector-c-6.1.6-winx64/include/byte_order_generic.h:91-97 | the eight bytes of a number are the four of its low half and the four of its high half |
| ByteOrder.Int2store | mysql-connector-c-6.1.6-winx64/include/byte_order_generic.h:76-81 | writes the two low bytes in place and no other byte |
| ByteOrder.Int3store | mysql-connector-c-6.1.6-winx64/include/my_byteorder.h:77-82 | writes the three low bytes in place and no other byte |
| ByteOrder.Int4store | mysql-connector-c-6.1.6-winx64/include/byte_order_generic.h:83-89 | writes the four low bytes in place and no other byte |
| ByteOrder.Int5store | mysql-connector-c-6.1.6-winx64/include/my_byteorder.h:84-91 | writes the five low bytes in place and no other byte |
| ByteOrder.Int6store | mysql-connector-c-6.1.6-winx64/include/my_byteorder.h:93-101 | writes the six low bytes in place and no other byte |
| ByteOrder.Int8store | mysql-connector-c-6.1.6-winx64/include/byte_order_generic.h:91-97 | two stores of four bytes write the eight low bytes in place and no other byte |
| TrailingSpace.SkipTrailingSpace | mysql-connector-c-6.1.6-winx64/include/m_string.h:318-330 | for every text the eight-byte stride ends where the trailing spaces begin, as the byte loop does |
| TrailingSpace.SkipTrailingSpaceSparc | mysql-connector-c-6.1.6-winx64/include/m_string.h:281-311 | so do the three zones, for every text, length, base address and word size of 4 or 8; each word read is aligned and lies inside the text |
| TrailingSpace.SkipWords | mysql-connector-c-6.1.6-winx64/include/m_string.h:305-306 | the middle zone skips spaces only, by aligned reads inside the text |
| TrailingSpace.TrimmedEndIsTheTrail | mysql-connector-c-6.1.6-winx64/include/m_string.h:308-309 | where the byte loop stops, everything behind is spaces and the byte before is not |
| TrailingSpace.TrailIsUnique | mysql-connector-c-6.1.6-winx64/include/m_string.h:308-309 | only one position has that property |
| TrailingSpace.LittleWordOfSpaces | mysql-connector-c-6.1.6-winx64/include/m_string.h:323 | an 8-byte load equals the mask if and only if all its bytes are spaces |
| TrailingSpace.BigWordOfSpaces | mysql-connector-c-6.1.6-winx64/include/m_string.h:305 | so does a word read high byte first |
| Timespec.SetTimespecNsec | mysql-connector-c-6.1.6-winx64/include/my_global.h:672-684 | the deadline is normalised, and names the tick sum in 64 bits with the odd nanoseconds kept |
| Timespec.SetTimespec | mysql-connector-c-6.1.6-winx64/include/my_global.h:686-689 | the same for a delay in seconds, whose product wraps first |
| Timespec.DeadlineIsExact | mysql-connector-c-6.1.6-winx64/include/my_global.h:675-677 | a deadline is exactly 100 times the clock plus the delay if and only if the tick sum stays below 2^64 |
| Timespec.DelayInSeconds | mysql-connector-c-6.1.6-winx64/include/my_global.h:686-689 | for every clock and delay, a delay in seconds is honoured if and only if its nanoseconds and the sum of ticks both stay below 2^64 |
| Timespec.DelaysThatRunOver | mysql-connector-c-6.1.6-winx64/include/my_global.h:672-689 | one second is not honoured at the last clock reading, and 18446744074 seconds not even at the first |
| Timespec.CmpTimespec | mysql-connector-c-6.1.6-winx64/include/my_global.h:698-714 | on normalised times the result is the sign of the exact difference in nanoseconds |
| Timespec.ComparingNeedsNormalTimes | mysql-connector-c-6.1.6-winx64/include/my_global.h:698-714 | comparing with every normalised time gives the order of total nanoseconds if and only if the time is normalised itself |
| Timespec.DiffTimespec | mysql-connector-c-6.1.6-winx64/include/my_global.h:716-724 | the difference in nanoseconds modulo 2^64, however the steps wrap |
| Timespec.DeadlinesKeepTheirDistance | mysql-connector-c-6.1.6-winx64/include/my_global.h:672-724 | two deadlines set from one clock reading are as far apart as their delays, whether or not either sum ran over |

## Left out

- Floating point members: `float` has a row-writer operator and a column type, but no struct has such a member.
- The calls into DIA and COM, and the constructors that copy fields from them: an incoming symbol, line or source file is a record of the values read. Symbol rows, source files and inclusions have all their columns; of ranges the model keeps the compiland, the file and the line numbers, and of other rows the id they carry and the record they were made from.
- `memset` over the strings of `Compiland` (drpdb/src/DIA2Input.cpp:532) and other object layout.
- Imports with more than 2^32 compilands, whose positions the map would wrap: RunKeepsMap and what follows from it assume no more.
- Sections, section contributions, injected sources, segments, input assemblies and frames: tables filled by a plain loop each.
- Descriptions in which a backslash takes a quote or the end of the text: the literal then runs on into the rest of the command, and what the server makes of that is not stated (DescriptionIsRead says which descriptions these are).
- Limits of a MySQL server other than the width of a primary key: the length of names and comments, the number of columns, keys and enumerators, the size of a row, repeated enumerators, and keys that are not primary on long strings, which no member asks for.
- The MySQL client library and its network protocol: a server executes the commands, a set of positions says at which commands the connection breaks, and what `mysql_error` says is a parameter.
- Commands of procedure scripts are taken to change no table; they run before all table commands, and the claims about these hold from any tables.
- Case and collation beyond the names of columns and variables, which are compared without case: table names, enumerators, keys on strings and file names are compared as they are spelled. SQL reserved words as column names are not told apart from other words.
- Character sets: a byte above 127 is a character that the server stores as it is; whether it counts as one in the connection's character set is not modelled.
- Directories with a quote in them, whose path literal ends too early, and files that an earlier run left where the LOAD of an unusable directory looks: UploadIsSafe and what follows from it assume neither.
- The lists of tags and location types: SymbolTransfer is proved for any two C++ enumerations that list 0, as drpdb/src/PDBReflection.inl:454-498 and 664-676 do.
- Failing writes of data files and unreadable script files: a file always holds what was written, and scripts are given as texts.
- The BuildTable overload for unordered maps (drpdb/src/MySQLOutput.cpp:180-192), which no table uses.
- StringUtils.Replace: an empty search string is excluded, because the loop of the source never ends on one; both callers pass one character.
- CsvRoundTrip.ReadFileBack: the separator is one that is neither a word character nor `-`, a quote, a backslash or a newline, as `,` and `;` are; the loader asks for `,` only.
- Schema.SchemaWriter.WriteBool: without bit types only its text is stated; the loader asks for bit types, and the parse proofs are for these.
- The CSV engine's header line, its locale lookup and its error report (drpdb/src/CSVOutput.cpp:19-46, 64-72, 197-217): easy additions to the writer that is modelled.
- Documenter.SortedIsInOrder: `std::sort` is modelled by what it does, not by its algorithm, which is not in the repository; OrderIsUnique shows that the result does not depend on it.
- Documenter.ApiTest.DefaultMeasure: the source looks for the pointer to a getter's name and the model for the name; they agree because `element` lists no getter twice.
- Documenter.Document: tags below 42 are assumed, as indexing a larger one is undefined, and the lists are shown before they are printed with their numbers.
- TrailingSpace.SkipTrailingSpaceSparc: addresses are natural numbers, so the sign extension of a 32-bit `intptr` is not modelled; it does not change multiples of the word size.
- Timespec.DiffTimespec: the signed subtraction of the seconds is exact, as its overflow is undefined in C. The Windows branches of the deadline functions are not modelled.
- ODBC output, wiki documentation, usage text, option parsing, and the error tables, key cache, IO cache and instrumentation wrappers of the client headers.
