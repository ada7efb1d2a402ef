/** What the reader's members promise across calls. */
module ReaderFacts {
  import opened Chars
  import opened Outcomes
  import opened Config
  import opened Tokenizer
  import opened TokenizerFacts
  import opened Reader

  lemma AddLetterNeverFails(o: ReaderOptions, skipping: bool, m: Machine, c: CodeUnit)
    requires !o.safetySwitch && m.status.Running?
    ensures AddLetter(o, skipping, m, c).status.Running?
  {
  }

  lemma BetweenNeverFails(o: ReaderOptions, skipping: bool, m: Machine, c: CodeUnit)
    requires !o.safetySwitch && m.status.Running? && m.phase.Between?
    ensures !BetweenStep(o, skipping, m, c).status.Failed?
  {
    var m1 := m.(qualified := false, started := true, phase := Unquoted(false, None, Escapes.Unicode));
    assert !UnquotedStep(o, skipping, m1, c).status.Failed? by {
      UnquotedNeverFails(o, skipping, m1, c);
    }
  }

  lemma UnquotedNeverFails(o: ReaderOptions, skipping: bool, m: Machine, c: CodeUnit)
    requires !o.safetySwitch && m.status.Running? && m.phase.Unquoted?
    ensures !UnquotedStep(o, skipping, m, c).status.Failed?
  {
  }

  lemma QuotedNeverFails(o: ReaderOptions, skipping: bool, m: Machine, c: CodeUnit)
    requires !o.safetySwitch && m.status.Running? && m.phase.Quoted?
    ensures !QuotedStep(o, skipping, m, c).status.Failed?
  {
  }

  lemma StepNeverFails(o: ReaderOptions, skipping: bool, m: Machine, c: CodeUnit)
    requires !o.safetySwitch && m.status.Running?
    ensures !Step(o, skipping, m, c).status.Failed?
  {
    match m.phase
    case Between => BetweenNeverFails(o, skipping, m, c);
    case Unquoted(_, _, _) => UnquotedNeverFails(o, skipping, m, c);
    case Quoted(_, _, _, _, _) => QuotedNeverFails(o, skipping, m, c);
    case CommentLine =>
  }

  /** With the safety switch off, reading never fails, however long the columns and records. */
  lemma {:induction false} RunNeverFails(o: ReaderOptions, skipping: bool, m: Machine, input: Text)
    requires !o.safetySwitch && !m.status.Failed?
    ensures !Run(o, skipping, m, input).0.status.Failed?
    decreases |input|
  {
    if m.status.Running? && |input| > 0 {
      StepNeverFails(o, skipping, m, input[0]);
      RunNeverFails(o, skipping, Step(o, skipping, m, input[0]), input[1..]);
    }
  }

  /** A failure only comes from the safety switch, closes the reader, and is one of its two errors. */
  lemma ReadFailureCloses(r: CsvReader, mode: Mode)
    requires !r.disposed
    ensures var c := ReadAs(r, mode);
      c.value.Err? ==> c.next.disposed && r.options.safetySwitch
                       && (c.value.error == FieldTooLong || c.value.error == TooManyColumns)
  {
    if r.more {
      var o := r.options;
      var skipping := mode == Skipping;
      ReadOneErrors(o, skipping, r.last, r.input);
    }
  }

  lemma ReadOneErrors(o: ReaderOptions, skipping: bool, last: CodeUnit, input: Text)
    ensures var m := ReadOne(o, skipping, last, input).0;
      m.status.Failed? ==> o.safetySwitch && (m.status.error == FieldTooLong || m.status.error == TooManyColumns)
  {
    var m := Run(o, skipping, Start(last), input).0;
    if !o.safetySwitch {
      RunNeverFails(o, skipping, Start(last), input);
    }
    RunFailure(o, skipping, Start(last), input);
    FlushErrors(o, skipping, m);
  }

  lemma FlushErrors(o: ReaderOptions, skipping: bool, m: Machine)
    requires m.status.Failed? ==> o.safetySwitch && (m.status.error == FieldTooLong || m.status.error == TooManyColumns)
    ensures var f := Flush(o, skipping, m);
      f.status.Failed? ==> o.safetySwitch && (f.status.error == FieldTooLong || f.status.error == TooManyColumns)
  {
  }

  /** The only errors the machine records are the safety switch's two. */
  lemma {:induction false} RunFailure(o: ReaderOptions, skipping: bool, m: Machine, input: Text)
    requires m.status.Failed? ==> m.status.error == FieldTooLong || m.status.error == TooManyColumns
    ensures var m' := Run(o, skipping, m, input).0;
      m'.status.Failed? ==> m'.status.error == FieldTooLong || m'.status.error == TooManyColumns
    decreases |input|
  {
    if m.status.Running? && |input| > 0 {
      StepErrors(o, skipping, m, input[0]);
      RunFailure(o, skipping, Step(o, skipping, m, input[0]), input[1..]);
    }
  }

  lemma StepErrors(o: ReaderOptions, skipping: bool, m: Machine, c: CodeUnit)
    requires m.status.Running?
    ensures var m' := Step(o, skipping, m, c);
      m'.status.Failed? ==> m'.status.error == FieldTooLong || m'.status.error == TooManyColumns
  {
    match m.phase
    case Between =>
      var m1 := m.(qualified := false, started := true, phase := Unquoted(false, None, Escapes.Unicode));
      assert Step(o, skipping, m, c) == BetweenStep(o, skipping, m, c);
      UnquotedErrors(o, skipping, m1, c);
    case Unquoted(_, _, _) => UnquotedErrors(o, skipping, m, c);
    case Quoted(_, _, _, _, _) =>
    case CommentLine =>
  }

  lemma UnquotedErrors(o: ReaderOptions, skipping: bool, m: Machine, c: CodeUnit)
    requires m.status.Running? && m.phase.Unquoted?
    ensures var m' := UnquotedStep(o, skipping, m, c);
      m'.status.Failed? ==> m'.status.error == FieldTooLong || m'.status.error == TooManyColumns
  {
  }

  /** Once closed, the reading members, the indexers, the accessors and the `Headers` getter throw
      `ObjectDisposedException`, and the `Headers` setter trips over the released index. The
      `CurrentRecord`, `ColumnCount` and `HeaderCount` properties have no disposed check. */
  lemma ClosedRejectsEverything(r: CsvReader, i: int, name: Option<Text>, value: Option<seq<Text>>)
    requires r.disposed
    ensures ReadRecord(r).value == Err(ObjectDisposed) && ReadHeaders(r).value == Err(ObjectDisposed)
    ensures SkipRecord(r).value == Err(ObjectDisposed) && SkipLine(r).value == Err(ObjectDisposed)
    ensures ColumnAt(r, i) == Err(ObjectDisposed) && ColumnNamed(r, name) == Err(ObjectDisposed)
    ensures GetIndex(r, name) == Err(ObjectDisposed) && GetLength(r, i) == Err(ObjectDisposed)
    ensures IsQualified(r, i) == Err(ObjectDisposed) && GetHeader(r, i) == Err(ObjectDisposed)
    ensures Values(r) == Err(ObjectDisposed) && GetHeaders(r) == Err(ObjectDisposed)
    ensures SetHeaders(r, value) == Err(NullReference)
    ensures ReadRecord(r).next == r && SkipRecord(r).next == r && SkipLine(r).next == r
  {
  }

  /** `ReadRecord` returns false only when there was no record: the record is empty and the input
      is exhausted. When it returns true the record has at least one column and the counter moved. */
  lemma ReadRecordOutcome(r: CsvReader)
    requires !r.disposed
    ensures var c := ReadRecord(r);
      && (c.value == Ok(false) ==> c.next.record == [] && !c.next.more)
      && (c.value == Ok(true) ==> |c.next.record| >= 1 && c.next.counter == (r.counter + 1) % RecordCounterModulus)
  {
    if r.more {
      ReadOneOutcome(r.options, false, r.last, r.input);
    }
  }

  /** `SkipRecord` stores nothing, counts nothing and captures nothing. */
  lemma SkipRecordStoresNothing(r: CsvReader)
    requires !r.disposed
    ensures var c := SkipRecord(r);
      c.value.Ok? && c.next.record == (if r.more then [] else r.record) && c.next.counter == r.counter
      && c.next.headers == r.headers && c.next.headerIndex == r.headerIndex
  {
    if r.more {
      ReadOneOutcome(r.options, true, r.last, r.input);
      var (m, rest) := Run(r.options, true, Start(r.last), r.input);
      StartSane(r.options, true, r.last);
      RunSane(r.options, true, Start(r.last), r.input);
      RunNeverFailsSkipping(r.options, Start(r.last), r.input);
    }
  }

  lemma SkippingStepNeverFails(o: ReaderOptions, m: Machine, c: CodeUnit)
    requires m.status.Running?
    ensures !Step(o, true, m, c).status.Failed?
  {
    match m.phase
    case Between =>
      var m1 := m.(qualified := false, started := true, phase := Unquoted(false, None, Escapes.Unicode));
      assert Step(o, true, m, c) == BetweenStep(o, true, m, c);
      assert !UnquotedStep(o, true, m1, c).status.Failed?;
    case Unquoted(_, _, _) =>
    case Quoted(_, _, _, _, _) =>
    case CommentLine =>
  }

  /** Skipping stores nothing, so the safety switch never trips while skipping. */
  lemma {:induction false} RunNeverFailsSkipping(o: ReaderOptions, m: Machine, input: Text)
    requires !m.status.Failed?
    ensures !Run(o, true, m, input).0.status.Failed?
    ensures !Flush(o, true, Run(o, true, m, input).0).status.Failed?
    decreases |input|
  {
    if m.status.Running? && |input| > 0 {
      SkippingStepNeverFails(o, m, input[0]);
      RunNeverFailsSkipping(o, Step(o, true, m, input[0]), input[1..]);
    }
  }

  /** The index `IndexNames` builds maps every name to the last position it holds, and leaves
      every other name as it was. */
  lemma {:induction false} IndexNamesLastWins(index: map<Text, int>, names: seq<Text>, k: Text)
    ensures k in names ==> k in IndexNames(index, names)
    ensures forall i :: 0 <= i < |names| && names[i] == k ==> IndexNames(index, names)[k] >= i
    ensures k in names ==> var j := IndexNames(index, names)[k]; 0 <= j < |names| && names[j] == k
    ensures k !in names ==> (k in IndexNames(index, names) <==> k in index)
    ensures k !in names && k in index ==> IndexNames(index, names)[k] == index[k]
    decreases |names|
  {
    if |names| > 0 {
      var init := names[..|names| - 1];
      IndexNamesLastWins(index, init, k);
      assert forall x :: x in init ==> x in names;
      if names[|names| - 1] != k {
        assert forall i :: 0 <= i < |names| - 1 ==> names[i] == init[i];
        if k in names {
          var i :| 0 <= i < |names| && names[i] == k;
          assert init[i] == k;
        }
      }
    }
  }

  /** The headers are captured as the texts of the row that was read, the index is updated over its
      old contents with the last column of each name winning, and the counter does not move. */
  lemma ReadHeadersCaptures(r: CsvReader)
    requires !r.disposed && r.more
    ensures var c := ReadHeaders(r);
      var (m, rest) := ReadOne(r.options, false, r.last, r.input);
      c.value == Ok(true) ==>
        && m.status.Ended?
        && c.next.headers == Some(Texts(m.fields)) && c.next.headerCount == |m.fields| >= 1
        && c.next.headerIndex == IndexNames(r.headerIndex, Texts(m.fields))
        && c.next.counter == r.counter && c.next.record == [] && c.next.input == rest
  {
    ReadOneOutcome(r.options, false, r.last, r.input);
  }

  /** Every member keeps the headers coherent with the header count. */
  lemma CoherentKept(r: CsvReader, value: Option<seq<Text>>)
    requires Coherent(r)
    ensures Coherent(ReadRecord(r).next) && Coherent(ReadHeaders(r).next)
    ensures Coherent(SkipRecord(r).next) && Coherent(SkipLine(r).next)
    ensures SetHeaders(r, value).Ok? ==> Coherent(SetHeaders(r, value).value)
  {
  }

  /** After setting the headers, `GetHeader` returns them and `GetIndex` finds each name at its
      last position. */
  lemma SetHeadersThenLookUp(r: CsvReader, hs: seq<Text>, i: int)
    requires !r.disposed && 0 <= i < |hs|
    ensures var r' := SetHeaders(r, Some(hs)).value;
      && GetHeader(r', i) == Ok(hs[i])
      && var j := GetIndex(r', Some(hs[i])).value; i <= j < |hs| && hs[j] == hs[i]
  {
    IndexNamesLastWins(map[], hs, hs[i]);
  }

  /** `SkipLine` consumes the current line and its line end, and nothing more. */
  lemma SkipLineConsumesLine(r: CsvReader)
    requires !r.disposed && r.more
    ensures var c := SkipLine(r);
      exists n :: 0 <= n <= |r.input| && c.next.input == r.input[n..]
        && (forall k :: 0 <= k < n - 1 ==> r.input[k] != CR && r.input[k] != LF)
        && (n < |r.input| ==> n > 0 && (r.input[n - 1] == CR || r.input[n - 1] == LF))
        && c.next.more == (n < |r.input|)
  {
    var n := LineLength(r.input);
    assert SkipLine(r).next.input == r.input[n..];
  }

  /** A read whose tokenizer run ends a record. */
  lemma ReadEnded(r: CsvReader, mode: Mode, m: Machine, rest: Text)
    requires !r.disposed && r.more && m.status == Ended
    requires ReadOne(r.options, mode == Skipping, r.last, r.input) == (m, rest)
    ensures ReadAs(r, mode) == Call(Capture(r.(record := m.fields, input := rest, more := |rest| > 0, last := m.last), mode), Ok(true))
  {
    var p := ReadOne(r.options, mode == Skipping, r.last, r.input);
    assert p.0 == m && p.1 == rest;
  }

  /** `ReadRecord` on input whose next record ends: true, the record's columns, and one more record
      counted. */
  lemma ReadRecordEnded(r: CsvReader, m: Machine, rest: Text)
    requires !r.disposed && r.more && m.status == Ended
    requires ReadOne(r.options, false, r.last, r.input) == (m, rest)
    ensures ReadRecord(r) == Call(r.(record := m.fields, input := rest, more := |rest| > 0, last := m.last,
                                     counter := (r.counter + 1) % RecordCounterModulus), Ok(true))
  {
    ReadEnded(r, Plain, m, rest);
  }
}
