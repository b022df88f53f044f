/** The statements that drpdb uploads for a table, and the parser by which a server reads them. */
module SqlParser {
  import opened StringUtils
  import opened SqlText
  import Decimal

  datatype ColumnType =
    | IntegerColumn(bits: nat, unsigned: bool)
    | VarcharColumn(length: nat)
    | BitColumn(width: nat)
    | EnumColumn(labels: seq<string>)

  datatype Item =
    | ColumnItem(name: string, ty: ColumnType, comment: Option<string>)
    | KeyItem(primary: bool, name: string)

  /** Where a field of the file goes: into a column, or into a user variable. */
  datatype Target = Column(name: string) | Variable(name: string)

  /** `column = CAST(@variable AS UNSIGNED)` */
  datatype Assignment = Assignment(column: string, variable: string)

  datatype Statement =
    | DropTable(name: string)
    | CreateTable(name: string, items: seq<Item>, comment: string)
    | LoadData(path: string, table: string, fieldsBy: string, enclosedBy: string, linesBy: string,
               targets: seq<Target>, assignments: seq<Assignment>)

  // ---------------------------------------------------------- combinators

  function Eat(expected: seq<Token>, ts: seq<Token>): (r: Option<seq<Token>>)
    ensures r.Some? ==> |r.value| == |ts| - |expected|
  {
    if expected <= ts then Some(ts[|expected|..]) else None
  }

  function EatWord(ts: seq<Token>): (r: Option<(string, seq<Token>)>)
    ensures r.Some? ==> |r.value.1| < |ts|
  {
    if ts != [] && ts[0].Word? then Some((ts[0].word, ts[1..])) else None
  }

  function EatQuoted(ts: seq<Token>): (r: Option<(string, seq<Token>)>)
    ensures r.Some? ==> |r.value.1| < |ts|
  {
    if ts != [] && ts[0].Quoted? then Some((ts[0].text, ts[1..])) else None
  }

  predicate Continues(ts: seq<Token>) {
    ts != [] && ts[0] == Sign(',')
  }

  function Keywords(words: seq<string>): (ts: seq<Token>)
    ensures |ts| == |words|
  {
    if words == [] then [] else [Word(words[0])] + Keywords(words[1..])
  }

  // --------------------------------------------------------- CREATE TABLE

  function ParseLabels(ts: seq<Token>): (r: Option<(seq<string>, seq<Token>)>)
    ensures r.Some? ==> |r.value.1| < |ts|
    decreases |ts|
  {
    var (first, rest) :- EatQuoted(ts);
    if Continues(rest) then
      var (labels, rest') :- ParseLabels(rest[1..]);
      Some(([first] + labels, rest'))
    else
      Some(([first], rest))
  }

  /** `(n)` behind the name of a type; "" when there is none. */
  function ParseWidth(ts: seq<Token>): (r: (string, seq<Token>))
    ensures |r.1| <= |ts|
  {
    if |ts| >= 3 && ts[0] == Sign('(') && ts[1].Word? && ts[2] == Sign(')') then (ts[1].word, ts[3..]) else ("", ts)
  }

  function ParseUnsigned(ts: seq<Token>): (r: (bool, seq<Token>))
    ensures |r.1| <= |ts|
  {
    if ts != [] && ts[0] == Word("UNSIGNED") then (true, ts[1..]) else (false, ts)
  }

  function TypeNamed(base: string, width: string, unsigned: bool): Option<ColumnType> {
    if base == "INT" then Some(IntegerColumn(32, unsigned))
    else if base == "BIGINT" then Some(IntegerColumn(64, unsigned))
    else if base == "VARCHAR" then
      var n :- Decimal.ParseNatural(width);
      Some(VarcharColumn(n))
    else if base == "BIT" then
      var n :- Decimal.ParseNatural(width);
      Some(BitColumn(n))
    else None
  }

  function ParseType(ts: seq<Token>): (r: Option<(ColumnType, seq<Token>)>)
    ensures r.Some? ==> |r.value.1| < |ts|
  {
    var (base, afterBase) :- EatWord(ts);
    if base == "ENUM" then
      var inside :- Eat([Sign('(')], afterBase);
      var (labels, afterLabels) :- ParseLabels(inside);
      var rest :- Eat([Sign(')')], afterLabels);
      Some((EnumColumn(labels), rest))
    else
      var (width, afterWidth) := ParseWidth(afterBase);
      var (unsigned, rest) := ParseUnsigned(afterWidth);
      var ty :- TypeNamed(base, width, unsigned);
      Some((ty, rest))
  }

  function ParseComment(ts: seq<Token>): (r: (Option<string>, seq<Token>))
    ensures |r.1| <= |ts|
  {
    if |ts| >= 2 && ts[0] == Word("COMMENT") && ts[1].Quoted? then (Some(ts[1].text), ts[2..]) else (None, ts)
  }

  function ParseColumn(ts: seq<Token>): (r: Option<(Item, seq<Token>)>)
    ensures r.Some? ==> |r.value.1| < |ts|
  {
    var (name, afterName) :- EatWord(ts);
    var (ty, afterType) :- ParseType(afterName);
    var afterNull :- Eat(Keywords(["NOT", "NULL"]), afterType);
    var (comment, rest) := ParseComment(afterNull);
    Some((ColumnItem(name, ty, comment), rest))
  }

  /** `KEY (name)`, from behind its parenthesis. */
  function ParseKey(primary: bool, ts: seq<Token>): (r: Option<(Item, seq<Token>)>)
    ensures r.Some? ==> |r.value.1| < |ts|
  {
    var (name, afterName) :- EatWord(ts);
    var rest :- Eat([Sign(')')], afterName);
    Some((KeyItem(primary, name), rest))
  }

  function ParseItem(ts: seq<Token>): (r: Option<(Item, seq<Token>)>)
    ensures r.Some? ==> |r.value.1| < |ts|
  {
    if [Word("PRIMARY"), Word("KEY"), Sign('(')] <= ts then ParseKey(true, ts[3..])
    else if [Word("KEY"), Sign('(')] <= ts then ParseKey(false, ts[2..])
    else ParseColumn(ts)
  }

  function ParseItems(ts: seq<Token>): (r: Option<(seq<Item>, seq<Token>)>)
    ensures r.Some? ==> |r.value.1| < |ts|
    decreases |ts|
  {
    var (item, rest) :- ParseItem(ts);
    if Continues(rest) then
      var (items, rest') :- ParseItems(rest[1..]);
      Some(([item] + items, rest'))
    else
      Some(([item], rest))
  }

  function ParseCreate(ts: seq<Token>): Option<Statement> {
    var (name, afterName) :- EatWord(ts);
    var inside :- Eat([Sign('(')], afterName);
    var (items, afterItems) :- ParseItems(inside);
    var tail :- Eat([Sign(')'), Word("Engine"), Sign('='), Word("MyISAM"), Word("COMMENT"), Sign('=')], afterItems);
    var (comment, end) :- EatQuoted(tail);
    if end == [Sign(';')] then Some(CreateTable(name, items, comment)) else None
  }

  // ------------------------------------------------------------ LOAD DATA

  function ParseTarget(ts: seq<Token>): (r: Option<(Target, seq<Token>)>)
    ensures r.Some? ==> |r.value.1| < |ts|
  {
    if ts != [] && ts[0] == Sign('@') then
      var (name, rest) :- EatWord(ts[1..]);
      Some((Variable(name), rest))
    else
      var (name, rest) :- EatWord(ts);
      Some((Column(name), rest))
  }

  function ParseTargets(ts: seq<Token>): (r: Option<(seq<Target>, seq<Token>)>)
    ensures r.Some? ==> |r.value.1| < |ts|
    decreases |ts|
  {
    var (target, rest) :- ParseTarget(ts);
    if Continues(rest) then
      var (targets, rest') :- ParseTargets(rest[1..]);
      Some(([target] + targets, rest'))
    else
      Some(([target], rest))
  }

  function ParseAssignment(ts: seq<Token>): (r: Option<(Assignment, seq<Token>)>)
    ensures r.Some? ==> |r.value.1| < |ts|
  {
    var (column, afterColumn) :- EatWord(ts);
    var afterCast :- Eat([Sign('='), Word("CAST"), Sign('('), Sign('@')], afterColumn);
    var (variable, afterVariable) :- EatWord(afterCast);
    var rest :- Eat([Word("AS"), Word("UNSIGNED"), Sign(')')], afterVariable);
    Some((Assignment(column, variable), rest))
  }

  function ParseAssignments(ts: seq<Token>): (r: Option<(seq<Assignment>, seq<Token>)>)
    ensures r.Some? ==> |r.value.1| < |ts|
    decreases |ts|
  {
    var (assignment, rest) :- ParseAssignment(ts);
    if Continues(rest) then
      var (assignments, rest') :- ParseAssignments(rest[1..]);
      Some(([assignment] + assignments, rest'))
    else
      Some(([assignment], rest))
  }

  /** The SET clause is optional. */
  function ParseSet(ts: seq<Token>): Option<(seq<Assignment>, seq<Token>)> {
    if ts != [] && ts[0] == Word("SET") then ParseAssignments(ts[1..]) else Some(([], ts))
  }

  function ParseLoad(ts: seq<Token>): Option<Statement> {
    var (path, afterPath) :- EatQuoted(ts);
    var afterInto :- Eat(Keywords(["into", "table"]), afterPath);
    var (table, afterTable) :- EatWord(afterInto);
    ParseFormat(path, table, afterTable)
  }

  /** The file format, the load list and the SET clause. */
  function ParseFormat(path: string, table: string, ts: seq<Token>): Option<Statement> {
    var afterFields :- Eat(Keywords(["fields", "terminated", "by"]), ts);
    var (fieldsBy, afterFieldsBy) :- EatQuoted(afterFields);
    var afterOptionally :- Eat(Keywords(["optionally", "enclosed", "by"]), afterFieldsBy);
    var (enclosedBy, afterEnclosedBy) :- EatQuoted(afterOptionally);
    var afterLines :- Eat(Keywords(["lines", "terminated", "by"]), afterEnclosedBy);
    var (linesBy, afterLinesBy) :- EatQuoted(afterLines);
    var inside :- Eat([Sign('(')], afterLinesBy);
    var (targets, afterTargets) :- ParseTargets(inside);
    var afterList :- Eat([Sign(')')], afterTargets);
    var (assignments, end) :- ParseSet(afterList);
    if end == [Sign(';')] then Some(LoadData(path, table, fieldsBy, enclosedBy, linesBy, targets, assignments))
    else None
  }

  // ------------------------------------------------------------ statement

  function ParseDrop(ts: seq<Token>): Option<Statement> {
    var (name, end) :- EatWord(ts);
    if end == [Sign(';')] then Some(DropTable(name)) else None
  }

  function Parse(command: string): Option<Statement> {
    var ts := Lex(command);
    if Keywords(["DROP", "TABLE", "IF", "EXISTS"]) <= ts then ParseDrop(ts[4..])
    else if Keywords(["CREATE", "TABLE"]) <= ts then ParseCreate(ts[2..])
    else if Keywords(["load", "data", "local", "infile"]) <= ts then ParseLoad(ts[4..])
    else None
  }
}
