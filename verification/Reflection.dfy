/**
 The member lists of drpdb/src/PDBReflection.inl. Every generator is an expansion of the same list, so a
 table is modelled by its list: any sequence of members, each with a name, a C++ type, a key kind and a
 description.
 */
module Reflection {
  import StringUtils
  import Decimal

  /** `ENUMERATOR(Tp, name)`: the value of `Tp::name` and its spelling. */
  datatype Enumerator = Enumerator(code: int, name: string)

  /** The member types for which both the row writer and the schema writer have an overload. */
  datatype MemberType =
    | Int32
    | UInt32
    | Long
    | ULong
    | LongLong
    | ULongLong
    | UChar
    | Characters
    | Boolean
    | Address
    | Enumeration(enumerators: seq<Enumerator>)

  datatype KeyKind = NotKey | PrimaryKey | Key

  datatype Member = Member(name: string, ty: MemberType, key: KeyKind, desc: string)

  /** `BEGIN_STRUCT(type, name, desc, category)` and the members up to `END_STRUCT()`. */
  datatype Struct = Struct(name: string, desc: string, members: seq<Member>)

  /** What one member of one record holds. */
  datatype Value = Number(n: int) | Chars(s: string) | Flag(b: bool) | Code(c: int)

  type Row = seq<Value>

  predicate IsNumeric(ty: MemberType) {
    !ty.Characters? && !ty.Boolean? && !ty.Enumeration?
  }

  /** The range of the C++ type; `long` has 32 bits on Windows and `address_info` holds a `uint32_t`. */
  predicate InRange(ty: MemberType, n: int)
    requires IsNumeric(ty)
  {
    match ty
    case Int32 => -0x8000_0000 <= n < 0x8000_0000
    case Long => -0x8000_0000 <= n < 0x8000_0000
    case LongLong => -0x8000_0000_0000_0000 <= n < 0x8000_0000_0000_0000
    case ULongLong => 0 <= n < 0x1_0000_0000_0000_0000
    case UChar => 0 <= n < 0x100
    case _ => 0 <= n < 0x1_0000_0000
  }

  predicate HasType(v: Value, ty: MemberType) {
    match ty
    case Characters => v.Chars?
    case Boolean => v.Flag?
    case Enumeration(_) => v.Code?
    case _ => v.Number? && InRange(ty, v.n)
  }

  predicate RowHasType(row: Row, members: seq<Member>) {
    |row| == |members| && forall i :: 0 <= i < |row| ==> HasType(row[i], members[i].ty)
  }

  predicate RowsHaveType(rows: seq<Row>, members: seq<Member>) {
    forall row :: row in rows ==> RowHasType(row, members)
  }

  /** `switch (V) { case Tp::name: out += #name; ... }`; no case, no text. */
  function EnumeratorName(enumerators: seq<Enumerator>, code: int): string {
    if enumerators == [] then ""
    else if enumerators[0].code == code then enumerators[0].name
    else EnumeratorName(enumerators[1..], code)
  }

  function Names(enumerators: seq<Enumerator>): seq<string> {
    seq(|enumerators|, i requires 0 <= i < |enumerators| => enumerators[i].name)
  }

  /** The code that a spelling stands for. */
  function CodeOf(enumerators: seq<Enumerator>, name: string): StringUtils.Option<int> {
    if enumerators == [] then StringUtils.None
    else if enumerators[0].name == name then StringUtils.Some(enumerators[0].code)
    else CodeOf(enumerators[1..], name)
  }

  /** `address_info` becomes one column with a suffix; every other member keeps its name. */
  function ColumnName(m: Member): string {
    if m.ty.Address? then m.name + "_" + "rv" else m.name
  }

  // ------------------------------------------------------------- spelling

  predicate IsLetter(c: char) {
    ('a' as int <= c as int <= 'z' as int) || ('A' as int <= c as int <= 'Z' as int)
  }

  predicate IsWordChar(c: char) {
    IsLetter(c) || Decimal.IsDigit(c) || c == '_' || c == '$'
  }

  /** The spelling of a C++ name, which is also that of an unquoted SQL name. */
  predicate IsName(s: string) {
    s != "" && forall c :: c in s ==> IsWordChar(c)
  }

  predicate AllNamed(members: seq<Member>) {
    members == [] || (IsName(members[0].name) && AllNamed(members[1..]))
  }

  predicate NamesAreNames(ty: MemberType) {
    ty.Enumeration? ==> forall e :: e in ty.enumerators ==> IsName(e.name)
  }

  predicate Spelled(members: seq<Member>) {
    forall m :: m in members ==> NamesAreNames(m.ty)
  }

  /** Spellings are distinct, so a spelling says which enumerator it is. */
  predicate DistinctNames(enumerators: seq<Enumerator>) {
    forall i, j :: 0 <= i < j < |enumerators| ==> enumerators[i].name != enumerators[j].name
  }

  predicate DistinctSpellings(members: seq<Member>) {
    forall m :: m in members ==> m.ty.Enumeration? ==> DistinctNames(m.ty.enumerators)
  }

  /** The code is one of those the `switch` lists. */
  predicate Listed(enumerators: seq<Enumerator>, code: int) {
    exists e :: e in enumerators && e.code == code
  }
}
