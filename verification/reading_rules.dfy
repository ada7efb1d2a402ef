/** The reader's rules for the characters between and around columns: blank lines, comment lines,
    skipped and trimmed padding, a column cut short by the end of the input, and the safety
    switch. */
module ReadingRules {
  import opened Chars
  import opened Outcomes
  import opened Config
  import Escapes
  import opened Tokenizer
  import opened TokenizerFacts
  import opened Scanning
  import Reader
  import ReaderFacts

  /** Blank lines produce no record when empty records are skipped: after any run of CR and LF the
      tokenizer is where it started, remembering only the last character. */
  lemma {:induction false} BlankLinesSkipped(o: ReaderOptions, last: CodeUnit, nl: Text, rest: Text)
    requires o.skipEmptyRecords && o.dialect.recordDelimiter.None? && Unambiguous(o.dialect)
    requires forall c :: c in nl ==> c == CR || c == LF
    ensures Run(o, false, Start(last), nl + rest)
         == Run(o, false, Start(if |nl| == 0 then last else nl[|nl| - 1]), rest)
    decreases |nl|
  {
    if |nl| == 0 {
      assert nl + rest == rest;
    } else {
      assert nl[0] in nl;
      RunCons(o, false, Start(last), nl[0], nl[1..] + rest);
      SplitFirst(nl, rest);
      assert Step(o, false, Start(last), nl[0]) == Start(nl[0]);
      assert forall c :: c in nl[1..] ==> c in nl;
      BlankLinesSkipped(o, nl[0], nl[1..], rest);
    }
  }

  /** When empty records are kept, CR and LF each end an empty record, except the LF of a CR LF
      pair, which is skipped. */
  lemma EmptyRecordsKept(o: ReaderOptions, last: CodeUnit)
    requires !o.skipEmptyRecords && o.dialect.recordDelimiter.None? && Unambiguous(o.dialect)
    ensures Step(o, false, Start(last), CR) == Machine(Between, false, false, [Field([], false)], [], CR, Ended)
    ensures last != CR ==> Step(o, false, Start(last), LF) == Machine(Between, false, false, [Field([], false)], [], LF, Ended)
    ensures Step(o, false, Start(CR), LF) == Start(LF)
  {
  }

  /** Everything in a comment line. */
  lemma {:induction false} CommentRest(o: ReaderOptions, m: Machine, line: Text, nl: CodeUnit, rest: Text)
    requires m.status.Running? && m.phase.CommentLine?
    requires forall c :: c in line ==> c != CR && c != LF
    requires nl == CR || nl == LF
    ensures Run(o, false, m, line + [nl] + rest) == Run(o, false, m.(last := nl, phase := Between), rest)
    decreases |line|
  {
    var m' := m.(last := nl, phase := Between);
    if |line| == 0 {
      assert line + [nl] + rest == [nl] + rest;
      CommentCharRead(o, m, nl, rest);
    } else {
      var m1 := m.(last := line[0]);
      var tail := line[1..] + [nl] + rest;
      assert line + [nl] + rest == [line[0]] + tail by {
        SplitFirst(line, [nl] + rest);
        AppendAssoc(line, [nl], rest);
        AppendAssoc(line[1..], [nl], rest);
      }
      assert line[0] in line;
      CommentCharRead(o, m, line[0], tail);
      assert forall c :: c in line[1..] ==> c in line;
      CommentRest(o, m1, line[1..], nl, rest);
      assert m1.(last := nl, phase := Between) == m';
    }
  }

  /** One character of a comment line: a CR or LF ends it, anything else is dropped. */
  lemma CommentCharRead(o: ReaderOptions, m: Machine, c: CodeUnit, tail: Text)
    requires m.status.Running? && m.phase.CommentLine?
    ensures Run(o, false, m, [c] + tail)
         == Run(o, false, m.(last := c, phase := if c == CR || c == LF then Between else CommentLine), tail)
  {
    var m1 := m.(last := c, phase := if c == CR || c == LF then Between else CommentLine);
    assert Step(o, false, m, c) == m1;
    RunCons(o, false, m, c, tail);
  }

  /** A comment line at the start of a record is dropped up to and including its CR or LF, even when
      the record delimiter is another character, and no record comes of it. */
  lemma CommentLineSkipped(o: ReaderOptions, last: CodeUnit, line: Text, nl: CodeUnit, rest: Text)
    requires o.useComments
    requires !(o.dialect.useTextQualifier && o.dialect.comment == o.dialect.qualifier)
    requires o.dialect.comment != o.dialect.delimiter && !IsTerminator(o.dialect, o.dialect.comment)
    requires forall c :: c in line ==> c != CR && c != LF
    requires nl == CR || nl == LF
    ensures Run(o, false, Start(last), [o.dialect.comment] + line + [nl] + rest) == Run(o, false, Start(nl), rest)
  {
    var m := Start(last);
    var c := o.dialect.comment;
    assert [c] + line + [nl] + rest == [c] + (line + [nl] + rest);
    RunCons(o, false, m, c, line + [nl] + rest);
    var m1 := Step(o, false, m, c);
    assert m1 == m.(last := c, phase := CommentLine);
    CommentRest(o, m1, line, nl, rest);
    assert m1.(last := nl, phase := Between) == Start(nl);
  }

  /** Blanks before an unqualified column are skipped when trimming: the column counts as started,
      but nothing is stored. */
  lemma {:induction false} LeadingBlanksSkipped(o: ReaderOptions, m: Machine, w: Text, rest: Text)
    requires o.trimWhitespace && m.status.Running? && m.phase.Between? && m.cur == []
    requires forall c :: c in w ==>
               IsSpaceOrTab(c) && !Breaks(o.dialect, c) && !(o.useComments && |m.fields| == 0 && c == o.dialect.comment)
    ensures Run(o, false, m, w + rest) == Run(o, false, if |w| == 0 then m else m.(started := true, qualified := false), rest)
    decreases |w|
  {
    if |w| == 0 {
      assert w + rest == rest;
    } else {
      assert w[0] in w;
      SplitFirst(w, rest);
      RunCons(o, false, m, w[0], w[1..] + rest);
      var m1 := m.(started := true, qualified := false);
      assert Step(o, false, m, w[0]) == m1;
      assert forall c :: c in w[1..] ==> c in w;
      LeadingBlanksSkipped(o, m1, w[1..], rest);
    }
  }

  /** Trailing blanks after a column whose first and last characters are not blanks are trimmed
      away, and nothing else is. */
  lemma {:induction false} TrailingBlanksTrimmed(x: Text, t: Text)
    requires |x| > 0 && !IsSpaceOrTab(x[|x| - 1])
    requires forall c :: c in t ==> IsSpaceOrTab(c)
    ensures TrimColumnEnd(x + t) == x
    decreases |t|
  {
    if |t| == 0 {
      assert x + t == x;
    } else {
      var k := |t| - 1;
      assert t[k] in t;
      assert (x + t)[..|x + t| - 1] == x + t[..k];
      assert forall c :: c in t[..k] ==> c in t;
      TrailingBlanksTrimmed(x, t[..k]);
    }
  }

  /** The separator after an unqualified column that trimming shortens to `x`. */
  lemma CloseTrimmed(o: ReaderOptions, m: Machine, x: Text, sep: CodeUnit)
    requires Unambiguous(o.dialect) && InBare(m) && !m.qualified
    requires sep == o.dialect.delimiter || IsTerminator(o.dialect, sep)
    requires !o.safetySwitch || |m.fields| < SafetyLimit
    requires ColumnText(o, m.cur, false) == x
    ensures Step(o, false, m, sep) == After(o, m, Field(x, false), sep)
  {
  }

  /** With trimming on, an unqualified column padded with blanks on either side is read as the text
      between the padding. */
  lemma PaddedColumnRead(o: ReaderOptions, m: Machine, w: Text, x: Text, t: Text, sep: CodeUnit, tail: Text)
    requires Unambiguous(o.dialect) && o.trimWhitespace && AtColumnStart(m)
    requires forall c :: c in w + t ==> IsSpaceOrTab(c) && !Breaks(o.dialect, c)
    requires |x| > 0 && !IsSpaceOrTab(x[0]) && !IsSpaceOrTab(x[|x| - 1])
    requires forall c :: c in x ==> !Breaks(o.dialect, c)
    requires o.useComments && |m.fields| == 0 ==> x[0] != o.dialect.comment && o.dialect.comment !in w
    requires sep == o.dialect.delimiter || IsTerminator(o.dialect, sep)
    requires !o.safetySwitch || (|x| + |t| <= SafetyLimit && |m.fields| < SafetyLimit)
    ensures Run(o, false, m, w + x + t + [sep] + tail) == Run(o, false, After(o, m, Field(x, false), sep), tail)
  {
    var d := o.dialect;
    assert forall c :: c in w ==> c in w + t;
    assert forall c :: c in t ==> c in w + t;
    assert w + x + t + [sep] + tail == w + (x + t + [sep] + tail);
    LeadingBlanksSkipped(o, m, w, x + t + [sep] + tail);
    var m1 := if |w| == 0 then m else m.(started := true, qualified := false);
    assert x[0] in x;
    OpenBare(o, m1, x[0]);
    var m2 := m1.(qualified := false, last := x[0], started := true, phase := Unquoted(false, None, Escapes.Unicode), cur := [x[0]]);
    AppendAssoc(x + t, [sep], tail);
    SplitFirst(x + t, [sep] + tail);
    assert (x + t)[0] == x[0];
    RunCons(o, false, m1, x[0], (x + t)[1..] + ([sep] + tail));
    assert forall c :: c in x + t ==> !Breaks(d, c) by {
      forall c | c in x + t ensures !Breaks(d, c) {
        if c !in x { assert c in t; }
      }
    }
    var m3 := BareRest(o, m2, x + t, [sep] + tail);
    TrailingBlanksTrimmed(x, t);
    CloseTrimmed(o, m3, x, sep);
    RunCons(o, false, m3, sep, tail);
  }

  /** A trailing delimiter at the end of the input is flushed as one more, empty, column: `a,` reads
      as `a` and the empty string. The empty column keeps the qualified flag of the column before
      it, since nothing resets it once the input has run out. */
  lemma TrailingDelimiterFlushed(o: ReaderOptions, last: CodeUnit, f: Field)
    requires Unambiguous(o.dialect) && Readable(o, true, f)
    ensures ReadOne(o, false, last, Encode(o.dialect, f) + [o.dialect.delimiter])
         == (Machine(Between, false, f.qualified, [f, Field([], f.qualified)], [], o.dialect.delimiter, Ended), [])
  {
    var d := o.dialect;
    var a := After(o, Start(last), f, d.delimiter);
    OneColumnRun(o, last, f);
    assert a == Machine(Between, false, f.qualified, [f], [], d.delimiter, Running);
    ReadOneOf(o, last, Encode(d, f) + [d.delimiter], a);
    DelimiterFlushed(o, [f], f.qualified);
    assert [f] + [Field([], f.qualified)] == [f, Field([], f.qualified)];
  }

  lemma OneColumnRun(o: ReaderOptions, last: CodeUnit, f: Field)
    requires Unambiguous(o.dialect) && Readable(o, true, f)
    ensures Run(o, false, Start(last), Encode(o.dialect, f) + [o.dialect.delimiter])
         == (After(o, Start(last), f, o.dialect.delimiter), [])
  {
    var d := o.dialect;
    var input := Encode(d, f) + [d.delimiter];
    assert input + [] == input;
    FieldRead(o, Start(last), f, d.delimiter, []);
  }

  lemma ReadOneOf(o: ReaderOptions, last: CodeUnit, input: Text, m: Machine)
    requires Run(o, false, Start(last), input) == (m, [])
    ensures ReadOne(o, false, last, input) == (Flush(o, false, m), [])
  {
  }

  /** The end of the input right after a delimiter ends the record with an empty column. */
  lemma DelimiterFlushed(o: ReaderOptions, fs: seq<Field>, q: bool)
    requires !o.safetySwitch || |fs| < SafetyLimit
    ensures var d := o.dialect;
      Flush(o, false, Machine(Between, false, q, fs, [], d.delimiter, Running))
      == Machine(Between, false, q, fs + [Field([], q)], [], d.delimiter, Ended)
  {
    assert ColumnText(o, [], q) == [];
  }

  /** An unqualified column cut off by the end of the input is still read as the last column of a
      record. */
  lemma UnterminatedColumnFlushed(o: ReaderOptions, last: CodeUnit, x: Text)
    requires Unambiguous(o.dialect) && Readable(o, true, Field(x, false))
    ensures var (m, rest) := ReadOne(o, false, last, x);
      rest == [] && m.status == Ended && m.fields == [Field(x, false)]
  {
    var m := Start(last);
    var m1 := m.(qualified := false, last := x[0], started := true, phase := Unquoted(false, None, Escapes.Unicode), cur := [x[0]]);
    assert Run(o, false, m, x) == Run(o, false, m1, x[1..] + []) by {
      assert x[0] in x;
      OpenBare(o, m, x[0]);
      assert x == [x[0]] + (x[1..] + []);
      RunCons(o, false, m, x[0], x[1..] + []);
    }
    var m2 := BareRest(o, m1, x, []);
    assert ReadOne(o, false, last, x) == (Flush(o, false, m2), []);
    assert ColumnText(o, x, false) == x by {
      if |x| > 1 && o.trimWhitespace {
        TrailingBlanksTrimmed(x, []);
        assert x + [] == x;
      }
    }
  }

  /** A column at the character limit fails on its next character when the safety switch is on. */
  lemma FullColumnStep(o: ReaderOptions, m: Machine, c: CodeUnit)
    requires o.safetySwitch && InBare(m) && |m.cur| >= SafetyLimit && !Breaks(o.dialect, c)
    ensures Step(o, false, m, c).status == Failed(FieldTooLong)
  {
  }

  /** With the safety switch on, an unqualified column longer than the limit fails the read. */
  lemma OverlongColumnFails(o: ReaderOptions, m: Machine, x: Text)
    requires o.safetySwitch && InBare(m) && m.cur == [] && |x| > SafetyLimit
    requires forall c :: c in x ==> !Breaks(o.dialect, c)
    ensures Run(o, false, m, x).0.status == Failed(FieldTooLong)
  {
    var a, b := x[..SafetyLimit], x[SafetyLimit..];
    assert x == a + b;
    RunAppend(o, false, m, a, b);
    assert forall c :: c in a ==> c in x;
    BareBodyRead(o, m, a);
    var m1 := Run(o, false, m, a).0;
    assert b[0] in x;
    FullColumnStep(o, m1, b[0]);
    SplitFirst(b, []);
    assert b == [b[0]] + b[1..];
    RunCons(o, false, m1, b[0], b[1..]);
  }

  /** With the safety switch on, a delimiter that would store one column too many fails the read. */
  lemma ColumnLimitStep(o: ReaderOptions, m: Machine)
    requires o.safetySwitch && AtColumnStart(m) && |m.fields| >= SafetyLimit
    requires !(o.dialect.useTextQualifier && o.dialect.delimiter == o.dialect.qualifier)
    ensures Step(o, false, m, o.dialect.delimiter).status == Failed(TooManyColumns)
  {
  }

  /** Characters dropped after a closed qualified column. */
  lemma {:induction false} JunkRest(o: ReaderOptions, m: Machine, y: Text, rest: Text) returns (m': Machine)
    requires m.status.Running? && m.phase.Quoted? && m.phase.junk
    requires forall c :: c in y ==> c != o.dialect.delimiter && !IsTerminator(o.dialect, c)
    ensures Run(o, false, m, y + rest) == Run(o, false, m', rest)
    ensures m' == m.(last := m'.last)
    decreases |y|
  {
    if |y| == 0 {
      assert y + rest == rest;
      m' := m;
    } else {
      assert y[0] in y;
      SplitFirst(y, rest);
      JunkCharRead(o, m, y[0], y[1..] + rest);
      assert forall c :: c in y[1..] ==> c in y;
      m' := JunkRest(o, m.(last := y[0]), y[1..], rest);
    }
  }

  /** One dropped character after a closing qualifier. */
  lemma JunkCharRead(o: ReaderOptions, m: Machine, c: CodeUnit, tail: Text)
    requires m.status.Running? && m.phase.Quoted? && m.phase.junk
    requires c != o.dialect.delimiter && !IsTerminator(o.dialect, c)
    ensures Run(o, false, m, [c] + tail) == Run(o, false, m.(last := c), tail)
  {
    assert Step(o, false, m, c) == m.(last := c);
    RunCons(o, false, m, c, tail);
  }

  /** Under doubled escaping, a closing qualifier followed by a character that is no qualifier,
      delimiter or terminator: the column stays open, and what follows is dropped. */
  lemma JunkStarts(o: ReaderOptions, m: Machine, c: CodeUnit, tail: Text)
    requires o.dialect.escapeMode == Doubled && InQuotes(m)
    requires c != o.dialect.qualifier && c != o.dialect.delimiter && !IsTerminator(o.dialect, c)
    ensures Run(o, false, m, [o.dialect.qualifier, c] + tail)
         == Run(o, false, m.(last := c, phase := Quoted(false, true, true, None, m.phase.radix)), tail)
  {
    var q := o.dialect.qualifier;
    var m1 := m.(last := q, phase := Quoted(true, true, false, None, m.phase.radix));
    assert Step(o, false, m, q) == m1;
    var m2 := m.(last := c, phase := Quoted(false, true, true, None, m.phase.radix));
    assert Step(o, false, m1, c) == m2;
    assert [q, c] + tail == [q] + ([c] + tail);
    RunCons(o, false, m, q, [c] + tail);
    RunCons(o, false, m1, c, tail);
  }

  /** The separator after dropped characters ends the column with the text read before them. */
  lemma JunkEnds(o: ReaderOptions, m: Machine, sep: CodeUnit, tail: Text)
    requires m.status.Running? && m.phase.Quoted? && m.phase.junk && m.qualified
    requires sep == o.dialect.delimiter || IsTerminator(o.dialect, sep)
    requires !o.safetySwitch || |m.fields| < SafetyLimit
    ensures Run(o, false, m, [sep] + tail) == Run(o, false, After(o, m, Field(m.cur, true), sep), tail)
  {
    assert ColumnText(o, m.cur, true) == m.cur;
    assert Step(o, false, m, sep) == After(o, m, Field(m.cur, true), sep);
    RunCons(o, false, m, sep, tail);
  }

  /** Under doubled escaping, whatever follows the closing qualifier of a column up to the next
      delimiter or terminator is dropped: `"ab"xy,` reads as `ab`. */
  lemma JunkDiscarded(o: ReaderOptions, m: Machine, x: Text, sep: CodeUnit, tail: Text)
    requires Unambiguous(o.dialect) && o.dialect.escapeMode == Doubled && InQuotes(m) && m.qualified
    requires |x| > 0 && x[0] != o.dialect.qualifier
    requires forall c :: c in x ==> c != o.dialect.delimiter && !IsTerminator(o.dialect, c)
    requires sep == o.dialect.delimiter || IsTerminator(o.dialect, sep)
    requires !o.safetySwitch || |m.fields| < SafetyLimit
    ensures Run(o, false, m, [o.dialect.qualifier] + x + [sep] + tail)
         == Run(o, false, After(o, m, Field(m.cur, true), sep), tail)
  {
    var q := o.dialect.qualifier;
    var m2 := m.(last := x[0], phase := Quoted(false, true, true, None, m.phase.radix));
    var t := x[1..] + ([sep] + tail);
    assert [q] + x + [sep] + tail == [q, x[0]] + t by {
      SplitFirst(x, [sep] + tail);
      AppendAssoc(x, [sep], tail);
      AppendAssoc([q], x, [sep]);
      AppendAssoc([q], x + [sep], tail);
      AppendAssoc([q], [x[0]], t);
    }
    assert x[0] in x;
    JunkStarts(o, m, x[0], t);
    assert forall c :: c in x[1..] ==> c in x;
    var m3 := JunkRest(o, m2, x[1..], [sep] + tail);
    JunkEnds(o, m3, sep, tail);
    assert After(o, m3, Field(m3.cur, true), sep) == After(o, m, Field(m.cur, true), sep);
  }

  /** With a custom record delimiter, CR and LF are ordinary characters: `a` LF `b;` is one
      record of one column holding the line break. */
  lemma NewlineInsideCustomRecord(last: CodeUnit, tail: Text)
    ensures var o := DefaultReaderOptions.(dialect := DefaultDialect.(recordDelimiter := Some(59)));
      var f := Field([97, LF, 98], false);
      ReadOne(o, false, last, [97, LF, 98, 59] + tail) == (Finished([f], 59), tail)
  {
    var o := DefaultReaderOptions.(dialect := DefaultDialect.(recordDelimiter := Some(59)));
    var f := Field([97, LF, 98], false);
    assert RecordReadable(o, [f]) by {
      assert forall c :: c in f.text ==> c == 97 || c == LF || c == 98;
    }
    assert EncodeRecord(o.dialect, [f]) == [97, LF, 98];
    RecordRead(o, last, [f], 59, tail);
    assert [97, LF, 98] + [59] + tail == [97, LF, 98, 59] + tail;
  }

  /** The machines `SkipRecord` passes through over `a,` LF `b` LF. */
  function SkipTrace(i: nat): Machine
    requires i <= 5
  {
    var bare := Unquoted(false, None, Escapes.Unicode);
    [ Start(Nul),
      Machine(bare, true, false, [], [], 97, Running),
      Machine(Between, false, false, [], [], Comma, Running),
      Machine(Between, false, false, [], [], LF, Running),
      Machine(bare, true, false, [], [], 98, Running),
      Machine(Between, false, false, [], [], LF, Ended) ][i]
  }

  const SkipInput: Text := [97, Comma, LF, 98, LF]

  lemma SkipSteps(i: nat)
    requires i < 5
    ensures Step(DefaultReaderOptions, true, SkipTrace(i), SkipInput[i]) == SkipTrace(i + 1)
  {
  }

  lemma {:induction false} SkipRun(i: nat, rest: Text)
    requires i <= 5
    ensures Run(DefaultReaderOptions, true, SkipTrace(i), SkipInput[i..] + rest) == (SkipTrace(5), rest)
    decreases 5 - i
  {
    if i == 5 {
      assert SkipInput[i..] + rest == rest;
    } else {
      SkipSteps(i);
      assert SkipInput[i..] + rest == [SkipInput[i]] + (SkipInput[i + 1..] + rest);
      RunCons(DefaultReaderOptions, true, SkipTrace(i), SkipInput[i], SkipInput[i + 1..] + rest);
      SkipRun(i + 1, rest);
    }
  }

  /** `SkipRecord` stores no columns, so a delimiter at the end of a line leaves the record looking
      empty, the line end is skipped as a blank line, and the skip runs on through the next line:
      over `a,` LF `b` LF it consumes both lines. */
  lemma SkipRecordRunsOn(rest: Text)
    ensures var r := Reader.NewReader(DefaultReaderOptions, SkipInput + rest);
      var c := Reader.SkipRecord(r);
      c.value == Ok(true) && c.next.input == rest && c.next.record == []
  {
    var o := DefaultReaderOptions;
    SkipRun(0, rest);
    var m5 := SkipTrace(5);
    assert SkipInput[0..] == SkipInput;
    assert Flush(o, true, m5) == m5;
    var r := Reader.NewReader(o, SkipInput + rest);
    ReaderFacts.ReadEnded(r, Reader.Skipping, m5, rest);
  }
}
