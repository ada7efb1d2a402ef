/** The decision rules of `CsvDataReader`: column declarations and their type tables, the null and
    default rules of `IsDBNull` and `GetValue`, the boolean tokens, name resolution in `CheckInit`,
    and the `Read` loop that lets a handler skip records. Conversions through the .NET parsers are
    not modelled: `GetValue` says which parser a text is handed to. */
module DataReader {
  import opened Chars
  import opened Outcomes
  import opened Config
  import opened Tokenizer
  import opened Reader

  /** The `DbType` values the type tables produce. */
  datatype DbType = String | DateTime | Guid | Double | Decimal | Boolean | Int32 | Int64 | Single | Int16 | Byte

  /** The `FieldType` values the type tables produce. */
  datatype FieldType = StringType | DateTimeType | GuidType | DoubleType | DecimalType | BoolType
                     | IntType | LongType | FloatType | ShortType | ByteType

  /** `dbTypeMappings`, keyed by the upper-cased type name. */
  const DbTypeMappings: map<string, DbType> := map[
    "STRING" := String, "TEXT" := String, "NTEXT" := String, "CHAR" := String, "NCHAR" := String,
    "VARCHAR" := String, "NVARCHAR" := String, "XML" := String,
    "DATETIME" := DateTime, "SMALLDATETIME" := DateTime,
    "GUID" := Guid, "UNIQUE" := Guid, "UNIQUEIDENTIFIER" := Guid, "IDENTIFIER" := Guid,
    "DOUBLE" := Double, "FLOAT" := Double,
    "NUMERIC" := Decimal, "DECIMAL" := Decimal, "MONEY" := Decimal, "SMALLMONEY" := Decimal, "CURRENCY" := Decimal,
    "BOOLEAN" := Boolean, "BOOL" := Boolean, "BIT" := Boolean,
    "INT" := Int32, "INTEGER" := Int32, "INT32" := Int32, "SHORT" := Int32,
    "LONG" := Int64, "BIGINT" := Int64, "INT64" := Int64,
    "SINGLE" := Single, "REAL" := Single,
    "SMALLINT" := Int16, "INT16" := Int16,
    "TINYINT" := Byte, "BYTE" := Byte]

  /** `typeMappings`. */
  const TypeMappings: map<string, FieldType> := map[
    "STRING" := StringType, "TEXT" := StringType, "NTEXT" := StringType, "CHAR" := StringType,
    "NCHAR" := StringType, "VARCHAR" := StringType, "NVARCHAR" := StringType, "XML" := StringType,
    "DATETIME" := DateTimeType, "SMALLDATETIME" := DateTimeType,
    "GUID" := GuidType, "UNIQUE" := GuidType, "UNIQUEIDENTIFIER" := GuidType, "IDENTIFIER" := GuidType,
    "DOUBLE" := DoubleType, "FLOAT" := DoubleType,
    "NUMERIC" := DecimalType, "DECIMAL" := DecimalType, "MONEY" := DecimalType, "SMALLMONEY" := DecimalType,
    "CURRENCY" := DecimalType,
    "BOOLEAN" := BoolType, "BOOL" := BoolType, "BIT" := BoolType,
    "INT32" := IntType, "INT" := IntType, "INTEGER" := IntType, "SHORT" := IntType,
    "INT64" := LongType, "LONG" := LongType, "BIGINT" := LongType,
    "SINGLE" := FloatType, "REAL" := FloatType,
    "INT16" := ShortType, "SMALLINT" := ShortType,
    "TINYINT" := ByteType, "BYTE" := ByteType]

  /** `nameMappings`: the SQL-style name each type reports. */
  const NameMappings: map<string, string> := map[
    "STRING" := "string", "TEXT" := "text", "NTEXT" := "ntext", "CHAR" := "char", "NCHAR" := "nchar",
    "VARCHAR" := "varchar", "NVARCHAR" := "nvarchar", "XML" := "xml",
    "DATETIME" := "datetime", "SMALLDATETIME" := "smalldatetime",
    "GUID" := "uniqueidentifier", "UNIQUE" := "uniqueidentifier", "UNIQUEIDENTIFIER" := "uniqueidentifier",
    "IDENTIFIER" := "uniqueidentifier",
    "DOUBLE" := "double", "FLOAT" := "float",
    "NUMERIC" := "decimal", "DECIMAL" := "decimal", "MONEY" := "money", "SMALLMONEY" := "smallmoney",
    "CURRENCY" := "money",
    "BOOLEAN" := "bit", "BOOL" := "bit", "BIT" := "bit",
    "INT" := "int", "INTEGER" := "int", "INT32" := "int", "SHORT" := "short",
    "LONG" := "long", "INT64" := "long", "BIGINT" := "bigint",
    "SINGLE" := "single", "REAL" := "real",
    "SMALLINT" := "smallint", "INT16" := "smallint",
    "TINYINT" := "tinyint", "BYTE" := "byte"]

  /** A declared column. `DefaultValue` and `FormatProvider` are opaque objects and are left out;
      `GetValue` reports when it would return the default value. */
  datatype Column = Column(fieldType: FieldType, dataTypeName: string, dbType: DbType,
                           format: Option<Text>, name: Option<Text>)

  /** `VerifyLookup`: the upper-cased name must be a key of all three tables. */
  predicate Known(upper: string) {
    upper in DbTypeMappings && upper in NameMappings && upper in TypeMappings
  }

  /** The `Column(dataType)` and `Column(dataType, columnName)` constructors. */
  function NewColumn(dataType: Option<string>, name: Option<Text>): (r: Result<Column>)
    ensures dataType.None? ==> r == Err(ArgumentNull)
    ensures dataType.Some? ==> (r.Ok? <==> UpperName(dataType.value) in DbTypeMappings)
    ensures r.Err? ==> r.error == ArgumentNull || r.error == UnknownDataType
    ensures r.Ok? ==> r.value.format.None? && r.value.name == name
  {
    match dataType
    case None => Err(ArgumentNull)
    case Some(t) =>
      var u := UpperName(t);
      if !Known(u) then Err(UnknownDataType)
      else Ok(Column(TypeMappings[u], NameMappings[u], DbTypeMappings[u], None, name))
  }

  /** The `Format` setter: a non-empty format only for `DateTime` columns; null or empty clears it. */
  function SetFormat(c: Column, value: Option<Text>): (r: Result<Column>)
    ensures value.Some? && |value.value| > 0 ==> (r.Ok? <==> c.dbType == DateTime)
    ensures r.Err? ==> r.error == NotSupported
    ensures r.Ok? ==> r.value == c.(format := r.value.format)
    ensures r.Ok? ==> (r.value.format.Some? <==> value.Some? && |value.value| > 0)
    ensures r.Ok? && r.value.format.Some? ==> r.value.format == value
  {
    match value
    case Some(v) =>
      if |v| > 0 then
        if c.dbType == DateTime then Ok(c.(format := value)) else Err(NotSupported)
      else Ok(c.(format := None))
    case None => Ok(c.(format := None))
  }

  /** The text both `IsDBNull` and `GetValue` look at: `String.Trim()` except for string columns. */
  function Looked(value: Option<Text>, t: DbType): (r: Option<Text>)
    ensures value.None? <==> r.None?
    ensures r.Some? && t == String ==> r == value
  {
    match value
    case Some(s) => if t != String then Some(TrimWhiteSpace(s)) else value
    case None => None
  }

  /** Whether the rules need to ask the reader if the field was qualified: only for an empty
      string column, since both conditions short-circuit before asking. */
  predicate AsksQualified(value: Option<Text>, t: DbType) {
    var s := Looked(value, t);
    s.Some? && |s.value| == 0 && t == String
  }

  /** `IsDBNull`'s rule for a value, its column's type and whether the field was qualified. */
  predicate IsNullValue(value: Option<Text>, t: DbType, qualified: bool) {
    var s := Looked(value, t);
    if s.None? then true
    else if |s.value| == 0 then (if t != String then true else !qualified)
    else false
  }

  /** The outcome of `GetValue`. */
  datatype Value =
    | Default                     // the column's `DefaultValue` (DBNull unless the caller set one)
    | Str(text: Text)             // the text of a string column
    | Bool(b: bool)               // a token of the boolean table
    | BooleanParse(text: Text)    // a boolean column's text outside the table, handed to `Boolean.Parse`
    | ParsedDate(text: Text, format: Option<Text>)  // handed to `DateTime.ParseExact` with the format, or `DateTime.Parse`
    | Parsed(dbType: DbType, text: Text)  // a text handed to the .NET parser of its type

  const TrueTokens: set<Text> := {FromString("TRUE"), FromString("T"), FromString("YES"), FromString("Y"), FromString("1"), FromString("-1")}
  const FalseTokens: set<Text> := {FromString("FALSE"), FromString("F"), FromString("NO"), FromString("N"), FromString("0")}

  /** The `switch` on the upper-cased text of a boolean column. */
  function BoolToken(upper: Text): (r: Option<bool>)
    ensures r == Some(true) <==> upper in TrueTokens
    ensures r == Some(false) <==> upper in FalseTokens
  {
    if upper in TrueTokens then Some(true)
    else if upper in FalseTokens then Some(false)
    else None
  }

  /** `GetValue`'s rule. */
  function Convert(value: Option<Text>, t: DbType, format: Option<Text>, qualified: bool): (v: Value)
    ensures v.Str? ==> t == String && value.Some? && v.text == value.value
    ensures v.Bool? ==> t == Boolean && value.Some? && BoolToken(ToUpper(TrimWhiteSpace(value.value))) == Some(v.b)
  {
    var s := Looked(value, t);
    if s.Some? && (|s.value| > 0 || (t == String && |s.value| == 0 && qualified)) then
      match t
      case String => Str(s.value)
      case Boolean =>
        (match BoolToken(ToUpper(s.value))
         case Some(b) => Bool(b)
         case None => BooleanParse(s.value))
      case DateTime => ParsedDate(s.value, format)
      case _ => Parsed(t, s.value)
    else Default
  }

  /** A `CsvDataReader`: the reader it wraps, its declared columns, and the state `CheckInit` and
      `Read` build. `values` is null until `CheckInit` has run. */
  datatype CsvDataReader = CsvDataReader(
    reader: CsvReader,
    columns: seq<Column>,
    hasHeaders: bool,
    initialized: bool,
    names: seq<Option<Text>>,
    values: Option<seq<Option<Text>>>,
    index: map<Text, int>,      // columnIndexByName
    disposed: bool)

  datatype DataCall<T> = DataCall(next: CsvDataReader, value: Result<T>)

  function NewDataReader(r: CsvReader, columns: seq<Column>, hasHeaders: bool): (d: CsvDataReader)
    ensures !d.initialized && !d.disposed && d.values.None?
  {
    CsvDataReader(r, columns, hasHeaders, false, [], None, map[], false)
  }

  /** The name of each column: its own `Name` when it has one, otherwise the header at its position
      when headers were read and there is one there. */
  function ResolveNames(columns: seq<Column>, headers: seq<Text>): (names: seq<Option<Text>>)
    ensures |names| == |columns|
  {
    seq(|columns|, k requires 0 <= k < |columns| =>
      if columns[k].name.Some? then columns[k].name
      else if k < |headers| then Some(headers[k])
      else None)
  }

  /** `columnIndexByName[name] = k` for every column with a name, in column order. */
  function IndexResolved(names: seq<Option<Text>>): (index: map<Text, int>)
    ensures forall n :: n in index ==> 0 <= index[n] < |names| && names[index[n]] == Some(n)
    ensures forall k :: 0 <= k < |names| && names[k].Some? ==> names[k].value in index
    decreases |names|
  {
    if |names| == 0 then map[]
    else
      var k := |names| - 1;
      var index := IndexResolved(names[..k]);
      match names[k]
      case Some(n) => index[n := k]
      case None => index
  }

  /** The header row `CheckInit` names the columns from: the one `ReadHeaders` captured, when
      headers are asked for and the input holds a record, and none otherwise. */
  function HeaderRow(d: CsvDataReader): seq<Text> {
    if d.hasHeaders then
      var call := ReadHeaders(d.reader);
      if call.value == Ok(true) then call.next.headers.GetOr([]) else []
    else []
  }

  /** `CheckInit`: on first use, requires a declared column, reads the header row if asked to, and
      resolves the column names. */
  function CheckInit(d: CsvDataReader): (c: DataCall<()>)
    ensures d.initialized ==> c == DataCall(d, Ok(()))
    ensures !d.initialized && |d.columns| == 0 ==> c == DataCall(d, Err(InvalidOperation))
    ensures !d.initialized && c.value.Ok? ==> c.next.initialized && c.next.values.Some? && |c.next.values.value| == |d.columns|
    ensures c.value.Ok? ==> c.next.columns == d.columns && !c.next.disposed == !d.disposed
    ensures !d.initialized && c.value.Ok? ==>
      c.next.names == ResolveNames(d.columns, HeaderRow(d)) && c.next.index == IndexResolved(c.next.names)
    ensures !d.initialized && !d.hasHeaders && c.value.Ok? ==> c.next.reader == d.reader
  {
    if d.initialized then DataCall(d, Ok(()))
    else if |d.columns| == 0 then DataCall(d, Err(InvalidOperation))
    else
      var n := |d.columns|;
      var blank := seq(n, _ => None);
      if d.hasHeaders then
        var call := ReadHeaders(d.reader);
        var d' := d.(reader := call.next, values := Some(blank), names := blank);
        match call.value
        case Err(e) => DataCall(d', Err(e))
        case Ok(found) =>
          var headers := if found then call.next.headers.GetOr([]) else [];
          var names := ResolveNames(d.columns, headers);
          DataCall(d'.(names := names, index := IndexResolved(names), initialized := true), Ok(()))
      else
        var names := ResolveNames(d.columns, []);
        DataCall(d.(values := Some(blank), names := names, index := IndexResolved(names), initialized := true), Ok(()))
  }

  /** `CheckColumnIndex`. */
  function CheckColumnIndex(d: CsvDataReader, i: int): (r: Result<()>)
    ensures r.Ok? <==> 0 <= i < |d.columns|
    ensures r.Err? ==> r.error == IndexOutOfRange
  {
    if i < 0 || i >= |d.columns| then Err(IndexOutOfRange) else Ok(())
  }

  /** `GetOrdinal`: the column's position, or -1 for a name no column has. */
  function GetOrdinal(d: CsvDataReader, name: Option<Text>): (c: DataCall<int>)
    ensures d.disposed ==> c == DataCall(d, Err(ObjectDisposed))
    ensures !d.disposed ==> c.next == CheckInit(d).next
    ensures !d.disposed && CheckInit(d).value.Err? ==> c.value == Err(CheckInit(d).value.error)
    ensures !d.disposed && CheckInit(d).value.Ok? && name.None? ==> c.value == Err(ArgumentNull)
  {
    if d.disposed then DataCall(d, Err(ObjectDisposed))
    else
      var init := CheckInit(d);
      if init.value.Err? then DataCall(init.next, Err(init.value.error))
      else match name
        case None => DataCall(init.next, Err(ArgumentNull))
        case Some(n) => DataCall(init.next, Ok(if n in init.next.index then init.next.index[n] else -1))
  }

  /** `GetName`: the name `CheckInit` resolved for the column. `names` has one slot per column
      declared when `CheckInit` ran, so a column added afterwards passes the index check and then
      fails the array lookup. */
  function GetName(d: CsvDataReader, i: int): (c: DataCall<Option<Text>>)
    ensures d.disposed ==> c == DataCall(d, Err(ObjectDisposed))
    ensures !d.disposed ==> c.next == CheckInit(d).next
    ensures !d.disposed && CheckInit(d).value.Err? ==> c.value == Err(CheckInit(d).value.error)
    ensures !d.disposed && CheckInit(d).value.Ok? && !(0 <= i < |d.columns| && i < |c.next.names|) ==>
      c.value == Err(IndexOutOfRange)
    ensures c.value.Ok? ==> 0 <= i < |d.columns| && i < |c.next.names| && c.value.value == c.next.names[i]
  {
    if d.disposed then DataCall(d, Err(ObjectDisposed))
    else
      var init := CheckInit(d);
      if init.value.Err? then DataCall(init.next, Err(init.value.error))
      else if i < 0 || i >= |d.columns| then DataCall(init.next, Err(IndexOutOfRange))
      else if i < |init.next.names| then DataCall(init.next, Ok(init.next.names[i]))
      else DataCall(init.next, Err(IndexOutOfRange))
  }

  /** The values of a record for the declared columns: the text of each column, or the empty
      string past the record's end. */
  function Fill(r: CsvReader, n: nat): (vs: seq<Option<Text>>)
    requires !r.disposed
    ensures |vs| == n
    ensures forall k :: 0 <= k < n ==> vs[k] == Some(ColumnAt(r, k).value)
  {
    seq(n, k requires 0 <= k < n => Some(ColumnAt(r, k).value))
  }

  /** The measure the `Read` loop decreases: unread characters, plus one while more is expected. */
  function Remaining(r: CsvReader): nat {
    |r.input| + (if r.more then 1 else 0)
  }

  lemma ReadProgress(r: CsvReader)
    ensures var c := ReadRecord(r); c.value == Ok(true) ==> Remaining(c.next) < Remaining(r)
  {
  }

  /** The loop of `Read`: read records, copy the values, and ask the handler whether to skip. */
  function ReadLoop(d: CsvDataReader, skip: seq<Option<Text>> -> bool): (c: DataCall<bool>)
    requires !d.disposed && d.values.Some?
    decreases Remaining(d.reader)
  {
    var call := ReadRecord(d.reader);
    match call.value
    case Err(e) => DataCall(d.(reader := call.next), Err(e))
    case Ok(found) =>
      if !found then DataCall(d.(reader := call.next), Ok(false))
      else
        var vs := Fill(call.next, |d.values.value|);
        var d' := d.(reader := call.next, values := Some(vs));
        ReadProgress(d.reader);
        if skip(vs) then ReadLoop(d', skip) else DataCall(d', Ok(true))
  }

  /** `Read`. Without a handler, `skip` is the function that never skips. */
  function Read(d: CsvDataReader, skip: seq<Option<Text>> -> bool): (c: DataCall<bool>)
    ensures d.disposed ==> c == DataCall(d, Err(ObjectDisposed))
    ensures !d.disposed && CheckInit(d).value.Err? ==> c == DataCall(CheckInit(d).next, Err(CheckInit(d).value.error))
  {
    if d.disposed then DataCall(d, Err(ObjectDisposed))
    else
      var init := CheckInit(d);
      if init.value.Err? then DataCall(init.next, Err(init.value.error))
      else if init.next.values.None? then DataCall(init.next, Err(NullReference))
      else ReadLoop(init.next, skip)
  }

  /** `IsDBNull`. It does not run `CheckInit`: before it, the values are null and the lookup throws. */
  function IsDbNull(d: CsvDataReader, i: int): (r: Result<bool>)
    ensures d.disposed ==> r == Err(ObjectDisposed)
    ensures !d.disposed && !(0 <= i < |d.columns|) ==> r == Err(IndexOutOfRange)
    ensures !d.disposed && 0 <= i < |d.columns| && d.values.None? ==> r == Err(NullReference)
  {
    if d.disposed then Err(ObjectDisposed)
    else if i < 0 || i >= |d.columns| then Err(IndexOutOfRange)
    else match d.values
      case None => Err(NullReference)
      case Some(vs) =>
        if i >= |vs| then Err(IndexOutOfRange)
        else
          var t := d.columns[i].dbType;
          if !AsksQualified(vs[i], t) then Ok(IsNullValue(vs[i], t, false))
          else
            var q := IsQualified(d.reader, i);
            if q.Err? then Err(q.error) else Ok(IsNullValue(vs[i], t, q.value))
  }

  /** `GetValue`. */
  function GetValue(d: CsvDataReader, i: int): (r: Result<Value>)
    ensures d.disposed ==> r == Err(ObjectDisposed)
    ensures !d.disposed && !(0 <= i < |d.columns|) ==> r == Err(IndexOutOfRange)
    ensures !d.disposed && 0 <= i < |d.columns| && d.values.None? ==> r == Err(NullReference)
  {
    if d.disposed then Err(ObjectDisposed)
    else if i < 0 || i >= |d.columns| then Err(IndexOutOfRange)
    else match d.values
      case None => Err(NullReference)
      case Some(vs) =>
        if i >= |vs| then Err(IndexOutOfRange)
        else
          var c := d.columns[i];
          if !AsksQualified(vs[i], c.dbType) then Ok(Convert(vs[i], c.dbType, c.format, false))
          else
            var q := IsQualified(d.reader, i);
            if q.Err? then Err(q.error) else Ok(Convert(vs[i], c.dbType, c.format, q.value))
  }

  /** `Close`: the wrapped reader is closed as well. */
  function Close(d: CsvDataReader): (d': CsvDataReader)
    ensures d'.disposed && d'.reader.disposed
  {
    d.(disposed := true, reader := Reader.Close(d.reader))
  }
}
