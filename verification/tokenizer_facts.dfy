/** General facts about the tokenizer: the invariant every step keeps, how runs compose, and
    what one `ReadRecord` call can end in. */
module TokenizerFacts {
  import opened Chars
  import opened Outcomes
  import opened Config
  import opened Tokenizer

  /** What holds of the machine between any two characters (nothing is promised once the reader has failed). */
  ghost predicate Sane(o: ReaderOptions, skipping: bool, m: Machine) {
    m.status.Failed? || Healthy(o, skipping, m)
  }

  ghost predicate Healthy(o: ReaderOptions, skipping: bool, m: Machine) {
    // a record only ends through EndColumn, and never on the delimiter
    && (m.status.Ended? ==> !m.started && m.last != o.dialect.delimiter && m.phase.Between?)
    && (m.status.Ended? && !skipping ==> |m.fields| >= 1)
    // inside a column, the column has been started
    && ((m.phase.Unquoted? || m.phase.Quoted?) ==> m.started)
    // with no column open there is no pending text
    && ((m.phase.Between? || m.phase.CommentLine?) ==> m.cur == [])
    // comments are only recognised before the first column is complete
    && (m.phase.CommentLine? ==> m.fields == [])
    // a skipped record stores nothing
    && (skipping ==> m.fields == [] && m.cur == [])
    // after a completed column, the record is either open or its last character was a delimiter
    && (m.status.Running? && m.phase.Between? && |m.fields| > 0 ==> m.started || m.last == o.dialect.delimiter)
    // the safety switch bounds both buffers
    && (o.safetySwitch ==> |m.cur| <= SafetyLimit && |m.fields| <= SafetyLimit)
  }

  lemma StartSane(o: ReaderOptions, skipping: bool, last: CodeUnit)
    ensures Sane(o, skipping, Start(last))
  {
  }

  lemma AddLetterSane(o: ReaderOptions, skipping: bool, m: Machine, c: CodeUnit)
    requires Sane(o, skipping, m) && m.status.Running? && (m.phase.Unquoted? || m.phase.Quoted?)
    ensures Sane(o, skipping, AddLetter(o, skipping, m, c))
  {
  }

  /** Closing a column on the delimiter `c`. */
  lemma EndColumnSane(o: ReaderOptions, skipping: bool, m: Machine, c: CodeUnit)
    requires Sane(o, skipping, m) && m.status.Running? && c == o.dialect.delimiter
    ensures Sane(o, skipping, EndColumn(o, skipping, m.(last := c)))
  {
  }

  /** Closing a column and the record on the terminator `c`. */
  lemma EndColumnAndRecordSane(o: ReaderOptions, skipping: bool, m: Machine, c: CodeUnit)
    requires Sane(o, skipping, m) && m.status.Running? && c != o.dialect.delimiter
    ensures Sane(o, skipping, EndColumnAndRecord(o, skipping, m.(last := c)))
  {
  }

  lemma FeedPayloadSane(o: ReaderOptions, skipping: bool, m: Machine, radix: Escapes.Radix, n: Escapes.Numeric,
                        c: CodeUnit, resumed: Phase, waiting: Escapes.Numeric -> Phase)
    requires Sane(o, skipping, m) && m.status.Running? && (m.phase.Unquoted? || m.phase.Quoted?)
    requires resumed.Unquoted? || resumed.Quoted?
    requires forall n' :: waiting(n').Unquoted? || waiting(n').Quoted?
    ensures Sane(o, skipping, FeedPayload(o, skipping, m, radix, n, c, resumed, waiting))
  {
    match Escapes.FeedDigit(radix, n, c)
    case Complete(v) => AddLetterSane(o, skipping, m.(phase := resumed), v);
    case Partial(n') =>
  }

  lemma BetweenSane(o: ReaderOptions, skipping: bool, m: Machine, c: CodeUnit)
    requires Sane(o, skipping, m) && m.status.Running? && m.phase.Between?
    ensures Sane(o, skipping, Step(o, skipping, m, c))
  {
    var d := o.dialect;
    var m0 := m.(qualified := false);
    if d.useTextQualifier && c == d.qualifier {
    } else if c == d.delimiter {
      EndColumnSane(o, skipping, m0, c);
    } else if d.recordDelimiter.Some? && c == d.recordDelimiter.value {
      EndColumnAndRecordSane(o, skipping, m0, c);
    } else if d.recordDelimiter.None? && (c == CR || c == LF) {
      EndColumnAndRecordSane(o, skipping, m0, c);
    } else if o.useComments && |m.fields| == 0 && c == d.comment {
    } else if o.trimWhitespace && IsSpaceOrTab(c) {
    } else {
      UnquotedSane(o, skipping, m0.(started := true, phase := Unquoted(false, None, Escapes.Unicode)), c);
    }
  }

  lemma UnquotedSane(o: ReaderOptions, skipping: bool, m: Machine, c: CodeUnit)
    requires Sane(o, skipping, m) && m.status.Running? && m.phase.Unquoted?
    ensures Sane(o, skipping, Step(o, skipping, m, c))
  {
    var d := o.dialect;
    var Unquoted(escaped, pending, radix) := m.phase;
    var decoding := !d.useTextQualifier && d.escapeMode == Backslash;
    var m1 := m.(last := c);
    if decoding && c == BackslashChar {
      AddLetterSane(o, skipping, m1.(phase := Unquoted(false, pending, radix)), BackslashChar);
    } else if pending.Some? {
      FeedPayloadSane(o, skipping, m1, radix, pending.value, c, Unquoted(escaped, None, radix),
                      (n: Escapes.Numeric) => Unquoted(escaped, Some(n), radix));
    } else if decoding && escaped {
      match Escapes.Introduce(radix, c)
      case Literal(x) => AddLetterSane(o, skipping, m1.(phase := Unquoted(false, None, radix)), x);
      case Start(r, n) =>
    } else if c == d.delimiter {
      EndColumnSane(o, skipping, m, c);
    } else if IsTerminator(d, c) {
      EndColumnAndRecordSane(o, skipping, m, c);
    } else {
      AddLetterSane(o, skipping, m1, c);
    }
  }

  lemma QuotedSane(o: ReaderOptions, skipping: bool, m: Machine, c: CodeUnit)
    requires Sane(o, skipping, m) && m.status.Running? && m.phase.Quoted?
    ensures Sane(o, skipping, Step(o, skipping, m, c))
  {
    var d := o.dialect;
    var Quoted(closing, escaped, junk, pending, radix) := m.phase;
    var m1 := m.(last := c);
    if junk {
      if c == d.delimiter {
        EndColumnSane(o, skipping, m, c);
      } else if IsTerminator(d, c) {
        EndColumnAndRecordSane(o, skipping, m, c);
      }
    } else if pending.Some? {
      FeedPayloadSane(o, skipping, m1, radix, pending.value, c, Quoted(closing, escaped, junk, None, radix),
                      (n: Escapes.Numeric) => Quoted(closing, escaped, junk, Some(n), radix));
    } else if c == d.qualifier {
      AddLetterSane(o, skipping, m1.(phase := Quoted(false, false, junk, pending, radix)), c);
    } else if d.escapeMode == Backslash && escaped {
      match Escapes.Introduce(radix, c)
      case Literal(x) => AddLetterSane(o, skipping, m1.(phase := Quoted(closing, false, junk, pending, radix)), x);
      case Start(r, n) =>
    } else if c == EscapeChar(d) {
    } else if closing {
      if c == d.delimiter {
        EndColumnSane(o, skipping, m, c);
      } else if IsTerminator(d, c) {
        EndColumnAndRecordSane(o, skipping, m, c);
      }
    } else {
      AddLetterSane(o, skipping, m1, c);
    }
  }

  lemma StepSane(o: ReaderOptions, skipping: bool, m: Machine, c: CodeUnit)
    requires Sane(o, skipping, m) && m.status.Running?
    ensures Sane(o, skipping, Step(o, skipping, m, c))
  {
    match m.phase
    case Between => BetweenSane(o, skipping, m, c);
    case Unquoted(_, _, _) => UnquotedSane(o, skipping, m, c);
    case Quoted(_, _, _, _, _) => QuotedSane(o, skipping, m, c);
    case CommentLine =>
  }

  lemma {:induction false} RunSane(o: ReaderOptions, skipping: bool, m: Machine, input: Text)
    requires Sane(o, skipping, m)
    ensures Sane(o, skipping, Run(o, skipping, m, input).0)
    decreases |input|
  {
    if m.status.Running? && |input| > 0 {
      StepSane(o, skipping, m, input[0]);
      RunSane(o, skipping, Step(o, skipping, m, input[0]), input[1..]);
    }
  }

  /** The read loop consumes a prefix of its input: what it leaves unread is a suffix. */
  lemma {:induction false} RunLeavesSuffix(o: ReaderOptions, skipping: bool, m: Machine, input: Text)
    ensures var rest := Run(o, skipping, m, input).1;
      rest == input[|input| - |rest|..]
    decreases |input|
  {
    if m.status.Running? && |input| > 0 {
      var rest := Run(o, skipping, m, input).1;
      RunLeavesSuffix(o, skipping, Step(o, skipping, m, input[0]), input[1..]);
      assert input[1..][|input| - 1 - |rest|..] == input[|input| - |rest|..];
    }
  }

  /** Running over `a + b` is running over `a`, then over `b` if the record is still open. */
  lemma {:induction false} RunAppend(o: ReaderOptions, skipping: bool, m: Machine, a: Text, b: Text)
    ensures var (m1, r1) := Run(o, skipping, m, a);
      Run(o, skipping, m, a + b) == if m1.status.Running? then Run(o, skipping, m1, b) else (m1, r1 + b)
    decreases |a|
  {
    if !m.status.Running? {
    } else if |a| == 0 {
      assert a + b == b;
    } else {
      assert (a + b)[0] == a[0];
      assert (a + b)[1..] == a[1..] + b;
      RunAppend(o, skipping, Step(o, skipping, m, a[0]), a[1..], b);
    }
  }

  /** One `ReadRecord` ends in one of three ways: a record with at least one column; no record,
      with the whole input consumed; or a safety failure. */
  lemma ReadOneOutcome(o: ReaderOptions, skipping: bool, last: CodeUnit, input: Text)
    ensures var (m, rest) := ReadOne(o, skipping, last, input);
      && (m.status.Ended? && !skipping ==> |m.fields| >= 1)
      && (m.status.Running? ==> m.fields == [] && rest == [])
      && (m.status.Ended? ==> m.phase.Between? && !m.started)
  {
    StartSane(o, skipping, last);
    RunSane(o, skipping, Start(last), input);
  }
}
