/** The format settings shared by the reader and the writer, and the options only one of them has. */
module Config {
  import opened Chars
  import opened Outcomes

  /** How a qualifier is written inside a qualified field: doubled (`""`) or backslash-escaped (`\"`). */
  datatype EscapeMode = Doubled | Backslash

  /** The settings both classes expose under the same names. */
  datatype Dialect = Dialect(
    delimiter: CodeUnit,
    qualifier: CodeUnit,               // TextQualifier
    escapeMode: EscapeMode,
    comment: CodeUnit,
    recordDelimiter: Option<CodeUnit>, // None: CR, LF or CR LF ends a record
    useTextQualifier: bool)

  /** A character that ends a record: the custom record delimiter when one is set, else CR or LF. */
  predicate IsTerminator(d: Dialect, c: CodeUnit) {
    match d.recordDelimiter
    case Some(t) => c == t
    case None => c == CR || c == LF
  }

  /** The character that starts an escape inside a qualified field. */
  function EscapeChar(d: Dialect): (e: CodeUnit)
    ensures d.escapeMode == Doubled ==> e == d.qualifier
    ensures d.escapeMode == Backslash ==> e == BackslashChar
  {
    if d.escapeMode == Backslash then BackslashChar else d.qualifier
  }

  /** Neither class checks it, but fields and records are only delimited unambiguously when the
      delimiter and the qualifier differ from each other and from every record terminator, and,
      under backslash escaping, none of them is the backslash itself. */
  predicate Unambiguous(d: Dialect) {
    && d.delimiter != d.qualifier
    && !IsTerminator(d, d.delimiter)
    && !IsTerminator(d, d.qualifier)
    && (d.escapeMode == Backslash ==>
          d.qualifier != BackslashChar && d.delimiter != BackslashChar && !IsTerminator(d, BackslashChar))
  }

  /** The reader's options. */
  datatype ReaderOptions = ReaderOptions(
    dialect: Dialect,
    trimWhitespace: bool,
    useComments: bool,
    skipEmptyRecords: bool,
    safetySwitch: bool)

  /** The line ending `TextWriter.WriteLine` emits (`Environment.NewLine`). */
  datatype Newline = Lf | CrLf

  function NewlineText(n: Newline): (t: Text)
    ensures |t| > 0 && t[|t| - 1] == LF
  {
    match n
    case Lf => [LF]
    case CrLf => [CR, LF]
  }

  /** The writer's options. */
  datatype WriterOptions = WriterOptions(
    dialect: Dialect,
    forceQualifier: bool,
    newline: Newline)

  /** What `EndRecord` and `WriteComment` emit: the custom record delimiter, or a newline. */
  function RecordEnd(o: WriterOptions): (t: Text)
    ensures o.dialect.recordDelimiter.Some? ==> t == [o.dialect.recordDelimiter.value]
    ensures o.dialect.recordDelimiter.None? ==> t == NewlineText(o.newline)
  {
    match o.dialect.recordDelimiter
    case Some(c) => [c]
    case None => NewlineText(o.newline)
  }

  /** The defaults of both constructors: comma, double quote, doubled escaping, `#`, CR/LF. */
  const DefaultDialect: Dialect :=
    Dialect(Comma, DoubleQuote, Doubled, Hash, None, true)

  const DefaultReaderOptions: ReaderOptions :=
    ReaderOptions(DefaultDialect, true, false, true, true)

  /** The historical limit on the characters of one column and on the columns of one record. */
  const SafetyLimit: nat := 100000

  lemma DefaultDialectUnambiguous()
    ensures Unambiguous(DefaultDialect)
    ensures !IsTerminator(DefaultDialect, Comma) && IsTerminator(DefaultDialect, CR)
  {
  }
}
