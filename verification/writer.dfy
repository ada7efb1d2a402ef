/** `CsvWriter`: one column at a time, with the decision whether to enclose it in qualifiers and the
    escaping that goes with each decision. The output stream is modelled as the text written so far. */
module Writer {
  import opened Chars
  import opened Outcomes
  import opened Config

  /** The column text `Write` works on: a null reference becomes the empty string, and unless
      spaces are preserved, leading and trailing spaces and tabs are trimmed (CsvWriter.cs:158-170). */
  function Cleaned(content: Option<Text>, preserve: bool): Text {
    var s := content.GetOr([]);
    if !preserve && |s| > 0 then TrimSpaceTab(s) else s
  }

  /** A character whose presence makes `Write` enclose the column: a record terminator (CR or LF,
      or the custom record delimiter), the qualifier, or the delimiter. */
  predicate Special(d: Dialect, c: CodeUnit) {
    IsTerminator(d, c) || c == d.qualifier || c == d.delimiter
  }

  /** The decision to enclose the column, in the order `Write` makes it (CsvWriter.cs:166-194). */
  predicate Quotes(o: WriterOptions, first: bool, c: Text, preserve: bool) {
    var d := o.dialect;
    if o.forceQualifier then true
    else if d.useTextQualifier
         && ((exists x :: x in c && Special(d, x))
             || (first && |c| > 0 && c[0] == d.comment)
             || (first && |c| == 0))
    then true
    else if d.useTextQualifier && |c| > 0 && preserve then
      IsSpaceOrTab(c[0]) || (|c| > 1 && IsSpaceOrTab(c[|c| - 1]))
    else false
  }

  /** The escaping inside qualifiers (CsvWriter.cs:195-213): under backslash escaping, backslashes
      are doubled first and then every qualifier gets a backslash; otherwise qualifiers are doubled. */
  function EscapeQuoted(d: Dialect, c: Text): Text {
    if d.escapeMode == Backslash then
      Replace(Replace(c, BackslashChar, [BackslashChar, BackslashChar]), d.qualifier, [BackslashChar, d.qualifier])
    else
      Replace(c, d.qualifier, [d.qualifier, d.qualifier])
  }

  /** The escaping of a column written without qualifiers (CsvWriter.cs:215-249). Only backslash
      escaping changes anything. Without a custom record delimiter the code replaces backslashes,
      not the CR and LF it tests for: each backslash is followed by a CR if the column holds a CR,
      and then by an LF if it holds an LF. */
  function EscapeBare(d: Dialect, first: bool, c: Text): Text {
    if d.escapeMode == Doubled then c
    else
      var c1 := Replace(c, BackslashChar, [BackslashChar, BackslashChar]);
      var c2 := Replace(c1, d.delimiter, [BackslashChar, d.delimiter]);
      var c3 :=
        match d.recordDelimiter
        case Some(t) => Replace(c2, t, [BackslashChar, t])
        case None =>
          var c4 := if CR in c2 then Replace(c2, BackslashChar, [BackslashChar, CR]) else c2;
          if LF in c4 then Replace(c4, BackslashChar, [BackslashChar, LF]) else c4;
      if first && |c3| > 0 && c3[0] == d.comment then [BackslashChar] + c3 else c3
  }

  /** The text of one column without the delimiter before it. */
  function Column(o: WriterOptions, first: bool, content: Option<Text>, preserve: bool): Text {
    var c := Cleaned(content, preserve);
    var q := o.dialect.qualifier;
    if Quotes(o, first, c, preserve) then [q] + EscapeQuoted(o.dialect, c) + [q]
    else EscapeBare(o.dialect, first, c)
  }

  /** `Write(content, preserveSpaces)` as a function of the writer's settings and its `firstColumn`
      flag: everything it sends to the output stream. */
  function Write(o: WriterOptions, first: bool, content: Option<Text>, preserve: bool): (r: Text)
    ensures first ==> r == Column(o, first, content, preserve)
    ensures !first ==> r == [o.dialect.delimiter] + Column(o, first, content, preserve)
  {
    (if first then [] else [o.dialect.delimiter]) + Column(o, first, content, preserve)
  }

  /** A `CsvWriter`: its settings, the `firstColumn` flag, everything written so far, and whether
      it has been closed. */
  datatype CsvWriter = CsvWriter(options: WriterOptions, first: bool, out: Text, disposed: bool)

  function NewWriter(o: WriterOptions): (w: CsvWriter)
    ensures w.first && w.out == [] && !w.disposed
  {
    CsvWriter(o, true, [], false)
  }

  /** `Write`: appends one column; after it the next column is not the first of its record. */
  function WriteColumn(w: CsvWriter, content: Option<Text>, preserve: bool): (r: Result<CsvWriter>)
    ensures w.disposed <==> r == Err(ObjectDisposed)
    ensures r.Ok? ==> r.value == w.(first := false, out := w.out + Write(w.options, w.first, content, preserve))
  {
    if w.disposed then Err(ObjectDisposed)
    else Ok(w.(first := false, out := w.out + Write(w.options, w.first, content, preserve)))
  }

  /** `EndRecord`: writes the custom record delimiter or a newline; the next column is a first one. */
  function EndRecord(w: CsvWriter): (r: Result<CsvWriter>)
    ensures w.disposed <==> r == Err(ObjectDisposed)
    ensures r.Ok? ==> r.value.first && r.value.out == w.out + RecordEnd(w.options)
  {
    if w.disposed then Err(ObjectDisposed)
    else Ok(w.(first := true, out := w.out + RecordEnd(w.options)))
  }

  /** `WriteComment`: the comment character, the text (nothing for null), and the record end. */
  function WriteComment(w: CsvWriter, text: Option<Text>): (r: Result<CsvWriter>)
    ensures w.disposed <==> r == Err(ObjectDisposed)
    ensures r.Ok? ==> r.value.first && r.value.out == w.out + [w.options.dialect.comment] + text.GetOr([]) + RecordEnd(w.options)
  {
    if w.disposed then Err(ObjectDisposed)
    else Ok(w.(first := true, out := w.out + [w.options.dialect.comment] + text.GetOr([]) + RecordEnd(w.options)))
  }

  /** The text of the columns of `values`, the first of them written as column `first`. */
  function Columns(o: WriterOptions, first: bool, values: seq<Option<Text>>, preserve: bool): Text
    decreases |values|
  {
    if |values| == 0 then [] else Write(o, first, values[0], preserve) + Columns(o, false, values[1..], preserve)
  }

  /** The columns of `values` written one after another, without the record end. */
  function WriteColumns(w: CsvWriter, values: seq<Option<Text>>, preserve: bool): (r: CsvWriter)
    requires !w.disposed
    ensures r.options == w.options && !r.disposed
    ensures r.first <==> w.first && |values| == 0
    ensures r.out == w.out + Columns(w.options, w.first, values, preserve)
    decreases |values|
  {
    if |values| == 0 then w
    else
      var t := Write(w.options, w.first, values[0], preserve);
      var r := WriteColumns(w.(first := false, out := w.out + t), values[1..], preserve);
      var rest := Columns(w.options, false, values[1..], preserve);
      assert Columns(w.options, w.first, values, preserve) == t + rest;
      AppendAssoc(w.out, t, rest);
      r
  }

  /** `WriteRecord(values, preserveSpaces)`: nothing at all for a null or empty array (not even the
      disposed check), otherwise every column and then the record end. */
  function WriteRecord(w: CsvWriter, values: Option<seq<Option<Text>>>, preserve: bool): (r: Result<CsvWriter>)
    ensures values.None? || |values.value| == 0 ==> r == Ok(w)
    ensures values.Some? && |values.value| > 0 ==> (w.disposed <==> r == Err(ObjectDisposed))
    ensures r.Ok? && values.Some? && |values.value| > 0 ==> r.value.first && !r.value.disposed
  {
    match values
    case None => Ok(w)
    case Some(vs) =>
      if |vs| == 0 then Ok(w)
      else if w.disposed then Err(ObjectDisposed)
      else EndRecord(WriteColumns(w, vs, preserve))
  }

  /** `Close`: releases the stream; every later member except an empty `WriteRecord` throws. */
  function Close(w: CsvWriter): (r: CsvWriter)
    ensures r.disposed && r.out == w.out
  {
    w.(disposed := true)
  }
}
