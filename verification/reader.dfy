/** `CsvReader` as a value: the unread input, the flags that survive from one `ReadRecord` call to
    the next, the current record, the captured headers, and the `disposed` flag. Every public member
    returns the reader after the call together with its result or the exception it throws. */
module Reader {
  import opened Chars
  import opened Outcomes
  import opened Config
  import opened Tokenizer
  import opened TokenizerFacts

  const RecordCounterModulus: nat := 0x1_0000_0000_0000_0000

  datatype CsvReader = CsvReader(
    options: ReaderOptions,
    input: Text,                  // the characters not yet read
    more: bool,                   // hasMoreData
    last: CodeUnit,               // lastLetter
    record: seq<Field>,           // the columns of the current record: ColumnCount of them
    headers: Option<seq<Text>>,   // null until captured or set
    headerCount: nat,
    headerIndex: map<Text, int>,  // headerIndexByName
    counter: nat,                 // currentRecord, an unsigned 64-bit counter
    disposed: bool)

  /** What a member call leaves behind: the reader, and the result or the exception. */
  datatype Call<T> = Call(next: CsvReader, value: Result<T>)

  /** A reader over `input`, as the `TextReader` constructors leave it. */
  function NewReader(o: ReaderOptions, input: Text): (r: CsvReader)
    ensures r.more && r.record == [] && r.headers.None? && r.headerCount == 0 && r.counter == 0 && !r.disposed
  {
    CsvReader(o, input, true, Nul, [], None, 0, map[], 0, false)
  }

  /** The headers the reader answers from are the ones it holds, unless it has been closed. */
  predicate Coherent(r: CsvReader) {
    r.disposed || (match r.headers case Some(hs) => |hs| == r.headerCount case None => r.headerCount == 0)
  }

  /** `Close`: the buffers, the headers and the header index are released. */
  function Close(r: CsvReader): (r': CsvReader)
    ensures r'.disposed && r'.headers.None? && r'.input == r.input && r'.record == r.record
  {
    r.(disposed := true, headers := None, headerIndex := map[])
  }

  /** The texts of a record's columns, as the integer indexer returns them. */
  function Texts(fs: seq<Field>): (ts: seq<Text>)
    ensures |ts| == |fs| && forall i :: 0 <= i < |fs| ==> ts[i] == fs[i].text
  {
    seq(|fs|, i requires 0 <= i < |fs| => fs[i].text)
  }

  /** `headerIndexByName[names[i]] = i` for every `i` in order, over the index as it was. */
  function IndexNames(index: map<Text, int>, names: seq<Text>): (r: map<Text, int>)
    decreases |names|
  {
    if |names| == 0 then index
    else IndexNames(index, names[..|names| - 1])[names[|names| - 1] := |names| - 1]
  }

  /** The role `ReadRecord` is called in: directly, from `ReadHeaders`, or from `SkipRecord`. */
  datatype Mode = Plain | Headers | Skipping

  /** `EndRecord` after the record: headers are captured while reading headers, and the record
      counter counts only ordinary records. */
  function Capture(r: CsvReader, mode: Mode): CsvReader {
    match mode
    case Plain => r.(counter := (r.counter + 1) % RecordCounterModulus)
    case Headers =>
      var names := Texts(r.record);
      r.(headers := Some(names), headerCount := |names|, headerIndex := IndexNames(r.headerIndex, names))
    case Skipping => r
  }

  /** `ReadRecord` with the `readingHeaders` and `skippingRecord` flags given by `mode`. */
  function ReadAs(r: CsvReader, mode: Mode): Call<bool> {
    if r.disposed then Call(r, Err(ObjectDisposed))
    else if !r.more then Call(r.(record := []), Ok(false))
    else
      var (m, rest) := ReadOne(r.options, mode == Skipping, r.last, r.input);
      var r' := r.(record := m.fields, input := rest, more := |rest| > 0, last := m.last);
      match m.status
      case Failed(e) => Call(Close(r'), Err(e))
      case Ended => Call(Capture(r', mode), Ok(true))
      case Running => Call(r', Ok(false))
  }

  /** `ReadRecord`: the next record, or false once the input is exhausted. */
  function ReadRecord(r: CsvReader): (c: Call<bool>)
    ensures r.disposed ==> c == Call(r, Err(ObjectDisposed))
    ensures !r.disposed && !r.more ==> c == Call(r.(record := []), Ok(false))
    ensures c.next.headers == r.headers || c.next.disposed
    ensures c.value.Ok? ==> c.next.headerIndex == r.headerIndex && !c.next.disposed
  {
    ReadAs(r, Plain)
  }

  /** `ReadHeaders`: one record read as the header row; the current record is cleared afterwards. */
  function ReadHeaders(r: CsvReader): (c: Call<bool>)
    ensures r.disposed ==> c == Call(r, Err(ObjectDisposed))
    ensures c.value.Ok? ==> c.next.record == [] && c.next.counter == r.counter
  {
    var c := ReadAs(r, Headers);
    if c.value.Ok? then c.(next := c.next.(record := [])) else c
  }

  /** `SkipRecord`: reads one record in skipping mode; without more input nothing happens at all. */
  function SkipRecord(r: CsvReader): (c: Call<bool>)
    ensures r.disposed ==> c == Call(r, Err(ObjectDisposed))
    ensures !r.disposed && !r.more ==> c == Call(r, Ok(false))
  {
    if r.disposed then Call(r, Err(ObjectDisposed))
    else if !r.more then Call(r, Ok(false))
    else ReadAs(r, Skipping)
  }

  /** The characters `SkipLine` consumes: up to and including the first CR or LF, whatever the
      record delimiter is. */
  function LineLength(s: Text): (n: nat)
    ensures n <= |s|
    ensures forall k :: 0 <= k < n - 1 ==> s[k] != CR && s[k] != LF
    ensures n < |s| ==> n > 0 && (s[n - 1] == CR || s[n - 1] == LF)
    ensures |s| > 0 ==> n > 0
    decreases |s|
  {
    if |s| == 0 then 0
    else if s[0] == CR || s[0] == LF then 1
    else 1 + LineLength(s[1..])
  }

  /** `SkipLine`: drops the rest of the current line; true when at least one character was read. */
  function SkipLine(r: CsvReader): (c: Call<bool>)
    ensures r.disposed ==> c == Call(r, Err(ObjectDisposed))
    ensures !r.disposed ==> c.value == Ok(r.more && |r.input| > 0)
    ensures !r.disposed ==> c.next.record == [] && c.next.counter == r.counter && c.next.headers == r.headers
  {
    if r.disposed then Call(r, Err(ObjectDisposed))
    else if !r.more then Call(r.(record := []), Ok(false))
    else
      var n := LineLength(r.input);
      var rest := r.input[n..];
      Call(r.(record := [], input := rest, more := |rest| > 0, last := if n > 0 then r.input[n - 1] else r.last), Ok(n > 0))
  }

  /** The integer indexer: the column's text, or the empty string outside the record. */
  function ColumnAt(r: CsvReader, i: int): (v: Result<Text>)
    ensures r.disposed <==> v == Err(ObjectDisposed)
    ensures !r.disposed && 0 <= i < |r.record| ==> v == Ok(r.record[i].text)
    ensures !r.disposed && !(0 <= i < |r.record|) ==> v == Ok([])
  {
    if r.disposed then Err(ObjectDisposed)
    else if -1 < i < |r.record| then Ok(r.record[i].text)
    else Ok([])
  }

  /** `GetIndex`: the header's column, or -1; a null name is rejected by the hash table. */
  function GetIndex(r: CsvReader, name: Option<Text>): (v: Result<int>)
    ensures r.disposed ==> v == Err(ObjectDisposed)
    ensures !r.disposed && name.None? ==> v == Err(ArgumentNull)
    ensures !r.disposed && name.Some? && name.value in r.headerIndex ==> v == Ok(r.headerIndex[name.value])
    ensures !r.disposed && name.Some? && name.value !in r.headerIndex ==> v == Ok(-1)
  {
    if r.disposed then Err(ObjectDisposed)
    else match name
      case None => Err(ArgumentNull)
      case Some(n) => Ok(if n in r.headerIndex then r.headerIndex[n] else -1)
  }

  /** The string indexer: the column under that header, or the empty string. */
  function ColumnNamed(r: CsvReader, name: Option<Text>): (v: Result<Text>)
    ensures r.disposed ==> v == Err(ObjectDisposed)
    ensures !r.disposed && name.None? ==> v == Err(ArgumentNull)
    ensures !r.disposed && name.Some? && name.value !in r.headerIndex ==> v == Ok([])
  {
    var i :- GetIndex(r, name);
    ColumnAt(r, i)
  }

  /** `GetLength`: the length of the column's (trimmed) text, or 0. */
  function GetLength(r: CsvReader, i: int): (v: Result<nat>)
    ensures r.disposed <==> v == Err(ObjectDisposed)
    ensures !r.disposed ==> v == Ok(|ColumnAt(r, i).value|)
  {
    if r.disposed then Err(ObjectDisposed)
    else if i < |r.record| && i > -1 then Ok(|r.record[i].text|)
    else Ok(0)
  }

  /** `IsQualified`: whether the column was enclosed in qualifiers; false outside the record. */
  function IsQualified(r: CsvReader, i: int): (v: Result<bool>)
    ensures r.disposed <==> v == Err(ObjectDisposed)
    ensures !r.disposed ==> (v == Ok(true) <==> 0 <= i < |r.record| && r.record[i].qualified)
  {
    if r.disposed then Err(ObjectDisposed)
    else Ok(i < |r.record| && i > -1 && r.record[i].qualified)
  }

  /** `GetHeader`: the header of the column, or the empty string. */
  function GetHeader(r: CsvReader, i: int): (v: Result<Text>)
    ensures r.disposed <==> v == Err(ObjectDisposed)
    ensures Coherent(r) && !r.disposed && 0 <= i < r.headerCount ==> v == Ok(r.headers.value[i])
    ensures !r.disposed && !(0 <= i < r.headerCount) ==> v == Ok([])
  {
    if r.disposed then Err(ObjectDisposed)
    else if i > -1 && i < r.headerCount then
      match r.headers
      case Some(hs) => Ok(if i < |hs| then hs[i] else [])
      case None => Ok([])
    else Ok([])
  }

  /** The `Values` getter: the texts of every column. */
  function Values(r: CsvReader): (v: Result<seq<Text>>)
    ensures r.disposed <==> v == Err(ObjectDisposed)
    ensures v.Ok? ==> |v.value| == |r.record| && forall i :: 0 <= i < |r.record| ==> v.value[i] == ColumnAt(r, i).value
  {
    if r.disposed then Err(ObjectDisposed) else Ok(Texts(r.record))
  }

  /** The `Headers` getter. */
  function GetHeaders(r: CsvReader): (v: Result<Option<seq<Text>>>)
    ensures r.disposed <==> v == Err(ObjectDisposed)
    ensures v.Ok? ==> v.value == r.headers
  {
    if r.disposed then Err(ObjectDisposed) else Ok(r.headers)
  }

  /** The `Headers` setter: replaces the headers and rebuilds the index from scratch. It does not
      check for disposal; on a closed reader the released index throws. */
  function SetHeaders(r: CsvReader, value: Option<seq<Text>>): (v: Result<CsvReader>)
    ensures r.disposed <==> v == Err(NullReference)
    ensures v.Ok? ==> v.value.headers == value && v.value.record == r.record && Coherent(v.value)
  {
    if r.disposed then Err(NullReference)
    else
      var names := value.GetOr([]);
      Ok(r.(headers := value, headerCount := |names|, headerIndex := IndexNames(map[], names)))
  }

  /** `CurrentRecord`: the counter minus one, in unsigned 64-bit arithmetic (so before the first
      record it is the largest such number). */
  function CurrentRecord(r: CsvReader): (n: nat)
    requires r.counter < RecordCounterModulus
    ensures n < RecordCounterModulus
    ensures r.counter > 0 ==> n + 1 == r.counter
    ensures r.counter == 0 ==> n == RecordCounterModulus - 1
  {
    (r.counter + RecordCounterModulus - 1) % RecordCounterModulus
  }
}
