/** The character-driven state machine inside `CsvReader.ReadRecord`.

    The source is one method of nested loops and labels; here every local that survives from one
    character to the next lives in a `Machine`, and `Step` is the loop body for one character.
    `Run` folds `Step` over the unread input until the record ends, the safety switch trips, or
    the input runs out. The 1024-character refill chunks of the source do not appear: every flag
    the loops keep is a local that survives a refill, so where the chunks break changes nothing. */
module Tokenizer {
  import opened Chars
  import opened Outcomes
  import opened Config
  import opened Escapes

  /** One column of the current record: its text and whether it was enclosed in qualifiers. */
  datatype Field = Field(text: Text, qualified: bool)

  /** Where in a record the tokenizer is. */
  datatype Phase =
      /** No column open: the top of the outer loop. */
    | Between
      /** Inside an unqualified column. `escaped`: a backslash was just seen (backslash mode with
          qualifiers off); `pending`: a numeric escape is collecting its payload; `radix`: the kind
          of the last numeric escape of this column. */
    | Unquoted(escaped: bool, pending: Option<Numeric>, radix: Radix)
      /** Inside a qualified column. `closing`: a qualifier was just seen that may end the column;
          `escaped`: the escape character was just seen (under doubled escaping that is the
          qualifier itself); `junk`: the column is closed and characters up to the next delimiter
          or terminator are dropped. */
    | Quoted(closing: bool, escaped: bool, junk: bool, pending: Option<Numeric>, radix: Radix)
      /** The rest of a comment line is being skipped (`SkipLine` called from `ReadRecord`). */
    | CommentLine

  /** Running; the record has ended (`hasReadNextLine`); or the safety switch has closed the reader. */
  datatype Status = Running | Ended | Failed(error: CsvError)

  /** The tokenizer state that persists from one character to the next within one `ReadRecord`. */
  datatype Machine = Machine(
    phase: Phase,
    started: bool,        // startedColumn
    qualified: bool,      // startedWithQualifier
    fields: seq<Field>,   // the columns completed so far: ColumnCount of them
    cur: Text,            // the characters of the open column
    last: CodeUnit,       // lastLetter
    status: Status)

  /** The machine at the start of `ReadRecord`, after `ClearColumns`. `last` survives from the previous call. */
  function Start(last: CodeUnit): Machine {
    Machine(Between, false, false, [], [], last, Running)
  }

  /** The tail of `EndColumn` that shortens an unqualified column: trailing spaces and tabs go, but the
      first character of the column is always kept. */
  function TrimColumnEnd(s: Text): (r: Text)
    ensures |r| <= |s| && r == s[..|r|]
    ensures |s| > 0 ==> |r| > 0
    ensures |r| > 1 ==> !IsSpaceOrTab(r[|r| - 1])
    ensures forall k :: |r| <= k < |s| ==> IsSpaceOrTab(s[k])
  {
    if |s| <= 1 || !IsSpaceOrTab(s[|s| - 1]) then s else TrimColumnEnd(s[..|s| - 1])
  }

  /** The text `EndColumn` records for the open column. */
  function ColumnText(o: ReaderOptions, cur: Text, qualified: bool): Text {
    if o.trimWhitespace && !qualified then TrimColumnEnd(cur) else cur
  }

  /** `AddLetter`: appends one character to the open column, unless the record is being skipped. */
  function AddLetter(o: ReaderOptions, skipping: bool, m: Machine, c: CodeUnit): Machine {
    if skipping then m
    else if o.safetySwitch && |m.cur| >= SafetyLimit then m.(status := Failed(FieldTooLong))
    else m.(cur := m.cur + [c])
  }

  /** `EndColumn`: closes the open column. While skipping, nothing is stored and nothing is counted. */
  function EndColumn(o: ReaderOptions, skipping: bool, m: Machine): Machine {
    if skipping then m.(started := false, phase := Between)
    else if o.safetySwitch && |m.fields| >= SafetyLimit then m.(started := false, status := Failed(TooManyColumns))
    else
      var f := Field(ColumnText(o, m.cur, m.qualified), m.qualified);
      m.(started := false, phase := Between, fields := m.fields + [f], cur := [])
  }

  /** `EndColumn(); EndRecord();` — the record ends unless closing the column already failed. */
  function EndColumnAndRecord(o: ReaderOptions, skipping: bool, m: Machine): Machine {
    var m' := EndColumn(o, skipping, m);
    if m'.status.Running? then m'.(status := Ended) else m'
  }

  /** One character at the top of the loop, with no column open (CsvReader.cs:369-659). */
  function BetweenStep(o: ReaderOptions, skipping: bool, m: Machine, c: CodeUnit): Machine
    requires m.phase.Between?
  {
    var d := o.dialect;
    var m := m.(qualified := false);
    if d.useTextQualifier && c == d.qualifier then
      m.(last := c, started := true, qualified := true, phase := Quoted(false, false, false, None, Unicode))
    else if c == d.delimiter then
      EndColumn(o, skipping, m.(last := c))
    else if d.recordDelimiter.Some? && c == d.recordDelimiter.value then
      if m.started || |m.fields| > 0 || !o.skipEmptyRecords then EndColumnAndRecord(o, skipping, m.(last := c))
      else m.(last := c)
    else if d.recordDelimiter.None? && (c == CR || c == LF) then
      if m.started || |m.fields| > 0 || (!o.skipEmptyRecords && (c == CR || m.last != CR)) then
        EndColumnAndRecord(o, skipping, m.(last := c))
      else m.(last := c)
    else if o.useComments && |m.fields| == 0 && c == d.comment then
      m.(last := c, phase := CommentLine)
    else if o.trimWhitespace && IsSpaceOrTab(c) then
      m.(started := true)
    else
      UnquotedStep(o, skipping, m.(started := true, phase := Unquoted(false, None, Unicode)), c)
  }

  /** One payload character of a numeric escape: the finished character is appended once the
      payload is complete, and the column goes on in the phase it was in. */
  function FeedPayload(o: ReaderOptions, skipping: bool, m: Machine, radix: Radix, n: Numeric,
                       c: CodeUnit, resumed: Phase, waiting: Numeric -> Phase): Machine
  {
    match FeedDigit(radix, n, c)
    case Complete(v) => AddLetter(o, skipping, m.(phase := resumed), v)
    case Partial(n') => m.(phase := waiting(n'))
  }

  /** One character inside an unqualified column (CsvReader.cs:660-858). Backslash escapes are
      decoded only in backslash mode with qualifiers turned off. */
  function UnquotedStep(o: ReaderOptions, skipping: bool, m: Machine, c: CodeUnit): Machine
    requires m.phase.Unquoted?
  {
    var d := o.dialect;
    var Unquoted(escaped, pending, radix) := m.phase;
    var decoding := !d.useTextQualifier && d.escapeMode == Backslash;
    var m := m.(last := c);
    if decoding && c == BackslashChar then
      if escaped then AddLetter(o, skipping, m.(phase := Unquoted(false, pending, radix)), BackslashChar)
      else m.(phase := Unquoted(true, pending, radix))
    else if pending.Some? then
      FeedPayload(o, skipping, m, radix, pending.value, c, Unquoted(escaped, None, radix),
                  (n: Numeric) => Unquoted(escaped, Some(n), radix))
    else if decoding && escaped then
      match Introduce(radix, c)
      case Literal(x) => AddLetter(o, skipping, m.(phase := Unquoted(false, None, radix)), x)
      case Start(r, n) => m.(phase := Unquoted(false, Some(n), r))
    else if c == d.delimiter then
      EndColumn(o, skipping, m)
    else if IsTerminator(d, c) then
      EndColumnAndRecord(o, skipping, m)
    else
      AddLetter(o, skipping, m, c)
  }

  /** One character inside a qualified column (CsvReader.cs:390-613). */
  function QuotedStep(o: ReaderOptions, skipping: bool, m: Machine, c: CodeUnit): Machine
    requires m.phase.Quoted?
  {
    var d := o.dialect;
    var Quoted(closing, escaped, junk, pending, radix) := m.phase;
    var m := m.(last := c);
    if junk then
      if c == d.delimiter then EndColumn(o, skipping, m)
      else if IsTerminator(d, c) then EndColumnAndRecord(o, skipping, m)
      else m
    else if pending.Some? then
      FeedPayload(o, skipping, m, radix, pending.value, c, Quoted(closing, escaped, junk, None, radix),
                  (n: Numeric) => Quoted(closing, escaped, junk, Some(n), radix))
    else if c == d.qualifier then
      if escaped then AddLetter(o, skipping, m.(phase := Quoted(false, false, junk, pending, radix)), c)
      else m.(phase := Quoted(true, d.escapeMode == Doubled, junk, pending, radix))
    else if d.escapeMode == Backslash && escaped then
      match Introduce(radix, c)
      case Literal(x) => AddLetter(o, skipping, m.(phase := Quoted(closing, false, junk, pending, radix)), x)
      case Start(r, n) => m.(phase := Quoted(closing, false, junk, Some(n), r))
    else if c == EscapeChar(d) then
      m.(phase := Quoted(closing, true, junk, pending, radix))
    else if closing then
      if c == d.delimiter then EndColumn(o, skipping, m)
      else if IsTerminator(d, c) then EndColumnAndRecord(o, skipping, m)
      else m.(phase := Quoted(false, escaped, true, pending, radix))
    else
      AddLetter(o, skipping, m, c)
  }

  /** One character of a comment line: everything up to and including CR or LF is dropped. */
  function CommentStep(m: Machine, c: CodeUnit): Machine
    requires m.phase.CommentLine?
  {
    m.(last := c, phase := if c == CR || c == LF then Between else CommentLine)
  }

  function Step(o: ReaderOptions, skipping: bool, m: Machine, c: CodeUnit): Machine
    requires m.status.Running?
  {
    match m.phase
    case Between => BetweenStep(o, skipping, m, c)
    case Unquoted(_, _, _) => UnquotedStep(o, skipping, m, c)
    case Quoted(_, _, _, _, _) => QuotedStep(o, skipping, m, c)
    case CommentLine => CommentStep(m, c)
  }

  /** Feeds characters to `Step` until the record ends, the reader fails, or the input runs out.
      Returns the final machine and the unread input. */
  function Run(o: ReaderOptions, skipping: bool, m: Machine, input: Text): (r: (Machine, Text))
    ensures |r.1| <= |input|
    ensures r.0.status.Running? ==> r.1 == []
    ensures !m.status.Running? ==> r == (m, input)
    ensures m.status.Running? && |input| > 0 ==> |r.1| < |input|
    decreases |input|
  {
    if !m.status.Running? || |input| == 0 then (m, input)
    else Run(o, skipping, Step(o, skipping, m, input[0]), input[1..])
  }

  /** The end of `ReadRecord` (CsvReader.cs:863-867): an open column, or a delimiter as the last
      character read, is closed into a final record. */
  function Flush(o: ReaderOptions, skipping: bool, m: Machine): Machine {
    if m.status.Failed? then m
    else if m.started || m.last == o.dialect.delimiter then EndColumnAndRecord(o, skipping, m)
    else m
  }

  /** The tokenizer part of one `ReadRecord` call: run from a fresh machine, then flush. */
  function ReadOne(o: ReaderOptions, skipping: bool, last: CodeUnit, input: Text): (Machine, Text) {
    var (m, rest) := Run(o, skipping, Start(last), input);
    (Flush(o, skipping, m), rest)
  }
}
