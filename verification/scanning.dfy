/** How the tokenizer reads whole pieces of input: the body of a qualified column, an unqualified
    column, the qualifier that closes a column and the character after it. These are the building
    blocks of the round trip and of the reader's documented behaviour. */
module Scanning {
  import opened Chars
  import opened Outcomes
  import opened Config
  import opened Tokenizer
  import opened TokenizerFacts

  /** How a qualified column holds `x`: every qualifier doubled, or, under backslash escaping, every
      backslash and every qualifier preceded by a backslash. Defined one character at a time. */
  function QuotedBody(d: Dialect, x: Text): (r: Text)
    ensures |r| >= |x|
  {
    if |x| == 0 then [] else QuotedChar(d, x[0]) + QuotedBody(d, x[1..])
  }

  function QuotedChar(d: Dialect, c: CodeUnit): (e: Text)
    ensures 1 <= |e| <= 2 && e[|e| - 1] == c
  {
    if d.escapeMode == Doubled then (if c == d.qualifier then [c, c] else [c])
    else if c == BackslashChar || c == d.qualifier then [BackslashChar, c] else [c]
  }

  /** A machine inside a qualified column with nothing pending. */
  predicate InQuotes(m: Machine) {
    m.status.Running? && m.phase.Quoted? && !m.phase.closing && !m.phase.escaped && !m.phase.junk
    && m.phase.pending.None?
  }

  /** There is room for `n` more characters in the open column. */
  predicate Room(o: ReaderOptions, m: Machine, n: nat) {
    !o.safetySwitch || |m.cur| + n <= SafetyLimit
  }

  /** Reading one escaped character of a qualified body appends exactly that character. */
  lemma QuotedCharRead(o: ReaderOptions, m: Machine, c: CodeUnit)
    requires Unambiguous(o.dialect) && InQuotes(m) && Room(o, m, 1)
    ensures Run(o, false, m, QuotedChar(o.dialect, c)) == (m.(cur := m.cur + [c], last := c), [])
  {
    var d := o.dialect;
    if d.escapeMode == Doubled && c == d.qualifier {
      DoubledQualifierRead(o, m);
    } else if d.escapeMode == Backslash && (c == BackslashChar || c == d.qualifier) {
      BackslashPairRead(o, m, c);
    } else {
      assert QuotedChar(d, c) == [c];
      assert Step(o, false, m, c) == m.(last := c, cur := m.cur + [c]);
    }
  }

  /** A doubled qualifier inside qualifiers stands for one qualifier. */
  lemma DoubledQualifierRead(o: ReaderOptions, m: Machine)
    requires Unambiguous(o.dialect) && InQuotes(m) && Room(o, m, 1) && o.dialect.escapeMode == Doubled
    ensures var q := o.dialect.qualifier;
      Run(o, false, m, [q, q]) == (m.(cur := m.cur + [q], last := q), [])
  {
    var q := o.dialect.qualifier;
    var m1 := m.(last := q, phase := Quoted(true, true, false, None, m.phase.radix));
    assert Step(o, false, m, q) == m1;
    var m2 := m.(last := q, cur := m.cur + [q]);
    assert Step(o, false, m1, q) == m2;
    RunTwo(o, false, m, q, q);
  }

  /** A backslash followed by a backslash or a qualifier stands for the second character. */
  lemma BackslashPairRead(o: ReaderOptions, m: Machine, c: CodeUnit)
    requires Unambiguous(o.dialect) && InQuotes(m) && Room(o, m, 1) && o.dialect.escapeMode == Backslash
    requires c == BackslashChar || c == o.dialect.qualifier
    ensures Run(o, false, m, [BackslashChar, c]) == (m.(cur := m.cur + [c], last := c), [])
  {
    var radix := m.phase.radix;
    var m1 := m.(last := BackslashChar, phase := Quoted(false, true, false, None, radix));
    assert Step(o, false, m, BackslashChar) == m1;
    if c == BackslashChar {
      assert Escapes.Introduce(radix, c) == Escapes.Literal(BackslashChar);
    }
    var m2 := m.(last := c, cur := m.cur + [c]);
    assert Step(o, false, m1, c) == m2;
    RunTwo(o, false, m, BackslashChar, c);
  }

  /** Two characters read from a machine that the first one leaves running. */
  lemma RunTwo(o: ReaderOptions, skipping: bool, m: Machine, a: CodeUnit, b: CodeUnit)
    requires m.status.Running? && Step(o, skipping, m, a).status.Running?
    ensures Run(o, skipping, m, [a, b]) == Run(o, skipping, Step(o, skipping, Step(o, skipping, m, a), b), [])
  {
    assert [a, b][0] == a && [a, b][1..] == [b];
    assert [b][0] == b && [b][1..] == [];
  }

  /** Reading the body of a qualified column gives back its text, and the column stays open. */
  lemma {:induction false} QuotedBodyRead(o: ReaderOptions, m: Machine, x: Text)
    requires Unambiguous(o.dialect) && InQuotes(m) && Room(o, m, |x|)
    ensures Run(o, false, m, QuotedBody(o.dialect, x)) == (m.(cur := m.cur + x, last := LastOr(m.last, x)), [])
    decreases |x|, 1
  {
    if |x| == 0 {
      assert QuotedBody(o.dialect, x) == [];
      assert m.cur + x == m.cur;
    } else {
      QuotedBodyReadCons(o, m, x);
    }
  }

  lemma {:induction false} QuotedBodyReadCons(o: ReaderOptions, m: Machine, x: Text)
    requires Unambiguous(o.dialect) && InQuotes(m) && Room(o, m, |x|) && |x| > 0
    ensures Run(o, false, m, QuotedBody(o.dialect, x)) == (m.(cur := m.cur + x, last := LastOr(m.last, x)), [])
    decreases |x|, 0
  {
    var c := x[0];
    var m1 := m.(cur := m.cur + [c], last := c);
    QuotedBodyCons(o, m, x);
    QuotedBodyRead(o, m1, x[1..]);
    assert x == [c] + x[1..];
    AppendAssoc(m.cur, [c], x[1..]);
    LastOrCons(m.last, x);
  }

  /** The first character of a qualified body, read on its own. */
  lemma QuotedBodyCons(o: ReaderOptions, m: Machine, x: Text)
    requires Unambiguous(o.dialect) && InQuotes(m) && Room(o, m, 1) && |x| > 0
    ensures Run(o, false, m, QuotedBody(o.dialect, x))
         == Run(o, false, m.(cur := m.cur + [x[0]], last := x[0]), QuotedBody(o.dialect, x[1..]))
  {
    var d := o.dialect;
    var e := QuotedChar(d, x[0]);
    QuotedCharRead(o, m, x[0]);
    assert QuotedBody(d, x) == e + QuotedBody(d, x[1..]);
    RunAppend(o, false, m, e, QuotedBody(d, x[1..]));
  }

  /** The last character of `x`, or `l` when `x` is empty. */
  function LastOr(l: CodeUnit, x: Text): CodeUnit {
    if |x| == 0 then l else x[|x| - 1]
  }

  lemma LastOrCons(l: CodeUnit, x: Text)
    requires |x| > 0
    ensures LastOr(x[0], x[1..]) == LastOr(l, x)
  {
  }

  /** A character that an unqualified column cannot hold as itself: it would open a qualified
      column, end the column or the record, or start a backslash escape. */
  predicate Breaks(d: Dialect, c: CodeUnit) {
    || (d.useTextQualifier && c == d.qualifier)
    || c == d.delimiter
    || IsTerminator(d, c)
    || (!d.useTextQualifier && d.escapeMode == Backslash && c == BackslashChar)
  }

  /** A machine inside an unqualified column with nothing pending. */
  predicate InBare(m: Machine) {
    m.status.Running? && m.phase.Unquoted? && !m.phase.escaped && m.phase.pending.None?
  }

  /** Reading the characters of an unqualified column appends them, and the column stays open. */
  lemma {:induction false} BareBodyRead(o: ReaderOptions, m: Machine, x: Text)
    requires InBare(m) && Room(o, m, |x|)
    requires forall c :: c in x ==> !Breaks(o.dialect, c)
    ensures Run(o, false, m, x) == (m.(cur := m.cur + x, last := LastOr(m.last, x)), [])
    decreases |x|
  {
    if |x| == 0 {
      assert m.cur + x == m.cur;
    } else {
      var c := x[0];
      assert c in x;
      var m1 := m.(last := c, cur := m.cur + [c]);
      BareCharRead(o, m, c, x[1..]);
      assert x == [c] + x[1..];
      assert forall c' :: c' in x[1..] ==> c' in x;
      BareBodyRead(o, m1, x[1..]);
      AppendAssoc(m.cur, [c], x[1..]);
      LastOrCons(m.last, x);
    }
  }

  /** One character of an unqualified column that does not end it. */
  lemma BareCharRead(o: ReaderOptions, m: Machine, c: CodeUnit, tail: Text)
    requires InBare(m) && Room(o, m, 1) && !Breaks(o.dialect, c)
    ensures Run(o, false, m, [c] + tail) == Run(o, false, m.(last := c, cur := m.cur + [c]), tail)
  {
    assert Step(o, false, m, c) == m.(last := c, cur := m.cur + [c]);
    RunCons(o, false, m, c, tail);
  }

  /** A machine at the top of the loop, ready to read the next column of the record. */
  predicate AtColumnStart(m: Machine) {
    m.status.Running? && m.phase.Between? && !m.started && m.cur == []
  }

  /** The text of one column as it stands in the input. */
  function Encode(d: Dialect, f: Field): Text {
    if f.qualified then [d.qualifier] + QuotedBody(d, f.text) + [d.qualifier] else f.text
  }

  /** `f` can be read back from `Encode(d, f)` as the column after `first` columns of its record:
      an unqualified column holds none of the breaking characters, does not begin with what the
      tokenizer skips or treats as a comment, and does not end in padding it would trim. */
  predicate Readable(o: ReaderOptions, first: bool, f: Field) {
    var d := o.dialect;
    var x := f.text;
    && (!o.safetySwitch || |x| <= SafetyLimit)
    && (f.qualified ==> d.useTextQualifier)
    && (!f.qualified ==>
          && (forall c :: c in x ==> !Breaks(d, c))
          && (first ==> |x| > 0)
          && (|x| > 0 ==> !(o.trimWhitespace && IsSpaceOrTab(x[0])) && !(first && o.useComments && x[0] == d.comment))
          && (|x| > 1 && o.trimWhitespace ==> !IsSpaceOrTab(x[|x| - 1])))
  }

  /** The machine after a column and the separator `sep` that follows it. */
  function After(o: ReaderOptions, m: Machine, f: Field, sep: CodeUnit): Machine {
    Machine(Between, false, f.qualified, m.fields + [f], [], sep,
            if sep == o.dialect.delimiter then Running else Ended)
  }

  /** Reading one encoded column followed by a delimiter or a terminator stores the column and,
      after a terminator, ends the record. */
  lemma FieldRead(o: ReaderOptions, m: Machine, f: Field, sep: CodeUnit, tail: Text)
    requires Unambiguous(o.dialect) && AtColumnStart(m)
    requires Readable(o, |m.fields| == 0, f)
    requires sep == o.dialect.delimiter || IsTerminator(o.dialect, sep)
    requires !o.safetySwitch || |m.fields| < SafetyLimit
    ensures Run(o, false, m, Encode(o.dialect, f) + [sep] + tail) == Run(o, false, After(o, m, f, sep), tail)
  {
    if f.qualified {
      QuotedFieldRead(o, m, f, sep, tail);
    } else if |f.text| == 0 {
      var input := Encode(o.dialect, f) + [sep] + tail;
      assert input == [sep] + tail;
      assert Step(o, false, m, sep) == After(o, m, f, sep);
    } else {
      BareFieldRead(o, m, f, sep, tail);
    }
  }

  lemma RunCons(o: ReaderOptions, skipping: bool, m: Machine, c: CodeUnit, rest: Text)
    requires m.status.Running?
    ensures Run(o, skipping, m, [c] + rest) == Run(o, skipping, Step(o, skipping, m, c), rest)
  {
    assert ([c] + rest)[0] == c;
    assert ([c] + rest)[1..] == rest;
  }

  /** The opening qualifier of a column. */
  lemma OpenQuote(o: ReaderOptions, m: Machine)
    requires AtColumnStart(m) && o.dialect.useTextQualifier
    ensures Step(o, false, m, o.dialect.qualifier)
         == m.(qualified := true, last := o.dialect.qualifier, started := true, phase := Quoted(false, false, false, None, Escapes.Unicode))
  {
  }

  /** The closing qualifier and the separator after it. */
  lemma CloseQuote(o: ReaderOptions, m: Machine, sep: CodeUnit)
    requires Unambiguous(o.dialect) && InQuotes(m) && m.qualified
    requires sep == o.dialect.delimiter || IsTerminator(o.dialect, sep)
    requires !o.safetySwitch || |m.fields| < SafetyLimit
    ensures Step(o, false, Step(o, false, m, o.dialect.qualifier), sep) == After(o, m, Field(m.cur, true), sep)
  {
    var d := o.dialect;
    var m3 := Step(o, false, m, d.qualifier);
    assert m3 == m.(last := d.qualifier, phase := Quoted(true, d.escapeMode == Doubled, false, None, m.phase.radix));
  }

  /** The first character of an unqualified column, whether or not skipped blanks came before it. */
  lemma OpenBare(o: ReaderOptions, m: Machine, c: CodeUnit)
    requires m.status.Running? && m.phase.Between? && m.cur == [] && !Breaks(o.dialect, c)
    requires !(o.trimWhitespace && IsSpaceOrTab(c)) && !(|m.fields| == 0 && o.useComments && c == o.dialect.comment)
    requires Room(o, m, 1)
    ensures Step(o, false, m, c)
         == m.(qualified := false, last := c, started := true, phase := Unquoted(false, None, Escapes.Unicode), cur := [c])
  {
  }

  /** The separator after an unqualified column whose end the trim leaves alone. */
  lemma CloseBare(o: ReaderOptions, m: Machine, sep: CodeUnit)
    requires Unambiguous(o.dialect) && InBare(m) && !m.qualified
    requires sep == o.dialect.delimiter || IsTerminator(o.dialect, sep)
    requires !o.safetySwitch || |m.fields| < SafetyLimit
    requires o.trimWhitespace ==> TrimColumnEnd(m.cur) == m.cur
    ensures Step(o, false, m, sep) == After(o, m, Field(m.cur, false), sep)
  {
  }

  lemma QuotedFieldRead(o: ReaderOptions, m: Machine, f: Field, sep: CodeUnit, tail: Text)
    requires Unambiguous(o.dialect) && AtColumnStart(m) && f.qualified
    requires Readable(o, |m.fields| == 0, f)
    requires sep == o.dialect.delimiter || IsTerminator(o.dialect, sep)
    requires !o.safetySwitch || |m.fields| < SafetyLimit
    ensures Run(o, false, m, Encode(o.dialect, f) + [sep] + tail) == Run(o, false, After(o, m, f, sep), tail)
  {
    var d := o.dialect;
    var x := f.text;
    var body := QuotedBody(d, x);
    var close := [d.qualifier, sep] + tail;
    assert Encode(d, f) + [sep] + tail == [d.qualifier] + (body + close);
    OpenQuote(o, m);
    var m1 := Step(o, false, m, d.qualifier);
    RunCons(o, false, m, d.qualifier, body + close);
    RunAppend(o, false, m1, body, close);
    QuotedBodyRead(o, m1, x);
    var m2 := Run(o, false, m1, body).0;
    assert m2.cur == x && m2.fields == m.fields;
    assert After(o, m2, Field(m2.cur, true), sep) == After(o, m, f, sep);
    ClosingRun(o, m2, sep, tail);
  }

  /** The closing qualifier and the separator after it, as input. */
  lemma ClosingRun(o: ReaderOptions, m: Machine, sep: CodeUnit, tail: Text)
    requires Unambiguous(o.dialect) && InQuotes(m) && m.qualified
    requires sep == o.dialect.delimiter || IsTerminator(o.dialect, sep)
    requires !o.safetySwitch || |m.fields| < SafetyLimit
    ensures Run(o, false, m, [o.dialect.qualifier, sep] + tail) == Run(o, false, After(o, m, Field(m.cur, true), sep), tail)
  {
    var d := o.dialect;
    var m3 := m.(last := d.qualifier, phase := Quoted(true, d.escapeMode == Doubled, false, None, m.phase.radix));
    assert Step(o, false, m, d.qualifier) == m3;
    CloseQuote(o, m, sep);
    assert [d.qualifier, sep] + tail == [d.qualifier] + ([sep] + tail);
    RunCons(o, false, m, d.qualifier, [sep] + tail);
    RunCons(o, false, m3, sep, tail);
  }

  lemma BareFieldRead(o: ReaderOptions, m: Machine, f: Field, sep: CodeUnit, tail: Text)
    requires Unambiguous(o.dialect) && AtColumnStart(m) && !f.qualified && |f.text| > 0
    requires Readable(o, |m.fields| == 0, f)
    requires sep == o.dialect.delimiter || IsTerminator(o.dialect, sep)
    requires !o.safetySwitch || |m.fields| < SafetyLimit
    ensures Run(o, false, m, Encode(o.dialect, f) + [sep] + tail) == Run(o, false, After(o, m, f, sep), tail)
  {
    var x := f.text;
    var c := x[0];
    assert c in x;
    var close := [sep] + tail;
    assert Encode(o.dialect, f) + [sep] + tail == [c] + (x[1..] + close);
    OpenBare(o, m, c);
    var m1 := Step(o, false, m, c);
    RunCons(o, false, m, c, x[1..] + close);
    var m2 := BareRest(o, m1, x, close);
    if o.trimWhitespace {
      assert TrimColumnEnd(x) == x;
    }
    CloseBare(o, m2, sep);
    RunCons(o, false, m2, sep, tail);
  }

  lemma BareRest(o: ReaderOptions, m1: Machine, x: Text, close: Text) returns (m2: Machine)
    requires |x| > 0 && InBare(m1) && m1.cur == [x[0]] && Room(o, m1, |x| - 1)
    requires forall c :: c in x ==> !Breaks(o.dialect, c)
    ensures Run(o, false, m1, x[1..] + close) == Run(o, false, m2, close)
    ensures m2 == m1.(cur := x, last := m2.last)
  {
    assert forall c' :: c' in x[1..] ==> c' in x;
    RunAppend(o, false, m1, x[1..], close);
    BareBodyRead(o, m1, x[1..]);
    m2 := Run(o, false, m1, x[1..]).0;
    assert [x[0]] + x[1..] == x;
  }

  /** The encodings of the columns of `fs`, in order. */
  function Encodings(d: Dialect, fs: seq<Field>): (r: seq<Text>)
    ensures |r| == |fs|
  {
    seq(|fs|, i requires 0 <= i < |fs| => Encode(d, fs[i]))
  }

  /** A record as it stands in the input: the encodings of its columns, separated by delimiters. */
  function EncodeRecord(d: Dialect, fs: seq<Field>): Text
    requires |fs| > 0
  {
    Join(Encodings(d, fs), d.delimiter)
  }

  lemma EncodeRecordCons(d: Dialect, fs: seq<Field>)
    requires |fs| > 1
    ensures EncodeRecord(d, fs) == Encode(d, fs[0]) + [d.delimiter] + EncodeRecord(d, fs[1..])
  {
    assert Encodings(d, fs)[1..] == Encodings(d, fs[1..]);
  }

  /** Every column of `fs` can be read back, and the safety switch allows that many columns. */
  predicate RecordReadable(o: ReaderOptions, fs: seq<Field>) {
    && |fs| > 0
    && (!o.safetySwitch || |fs| <= SafetyLimit)
    && forall i :: 0 <= i < |fs| ==> Readable(o, i == 0, fs[i])
  }

  /** The machine once a record has been read up to and including its terminator `t`. */
  function Finished(fs: seq<Field>, t: CodeUnit): Machine
    requires |fs| > 0
  {
    Machine(Between, false, fs[|fs| - 1].qualified, fs, [], t, Ended)
  }

  lemma ReadableShift(o: ReaderOptions, n: nat, fs: seq<Field>)
    requires |fs| > 0 && forall i :: 0 <= i < |fs| ==> Readable(o, n + i == 0, fs[i])
    ensures forall i :: 0 <= i < |fs[1..]| ==> Readable(o, n + 1 + i == 0, fs[1..][i])
  {
    forall i | 0 <= i < |fs[1..]|
      ensures Readable(o, n + 1 + i == 0, fs[1..][i])
    {
      assert fs[1..][i] == fs[i + 1];
      assert Readable(o, n + (i + 1) == 0, fs[i + 1]);
    }
  }

  lemma LastFieldRead(o: ReaderOptions, m: Machine, fs: seq<Field>, t: CodeUnit, tail: Text)
    requires Unambiguous(o.dialect) && AtColumnStart(m) && |fs| == 1 && IsTerminator(o.dialect, t)
    requires Readable(o, |m.fields| == 0, fs[0])
    requires !o.safetySwitch || |m.fields| + 1 <= SafetyLimit
    ensures Run(o, false, m, EncodeRecord(o.dialect, fs) + [t] + tail) == (Finished(m.fields + fs, t), tail)
  {
    var d := o.dialect;
    var f := fs[0];
    var a := After(o, m, f, t);
    assert a == Finished(m.fields + fs, t) by {
      assert t != d.delimiter;
      assert fs == [f];
    }
    assert EncodeRecord(d, fs) == Encode(d, f) by {
      assert Encodings(d, fs) == [Encode(d, f)];
    }
    FieldRead(o, m, f, t, tail);
    assert !a.status.Running?;
  }

  lemma {:induction false} FieldsRead(o: ReaderOptions, m: Machine, fs: seq<Field>, t: CodeUnit, tail: Text)
    requires Unambiguous(o.dialect) && AtColumnStart(m) && |fs| > 0 && IsTerminator(o.dialect, t)
    requires forall i :: 0 <= i < |fs| ==> Readable(o, |m.fields| + i == 0, fs[i])
    requires !o.safetySwitch || |m.fields| + |fs| <= SafetyLimit
    ensures Run(o, false, m, EncodeRecord(o.dialect, fs) + [t] + tail)
         == (Finished(m.fields + fs, t), tail)
    decreases |fs|, 1
  {
    assert Readable(o, |m.fields| + 0 == 0, fs[0]);
    if |fs| == 1 {
      LastFieldRead(o, m, fs, t, tail);
    } else {
      FieldsReadCons(o, m, fs, t, tail);
    }
  }

  lemma {:induction false} FieldsReadCons(o: ReaderOptions, m: Machine, fs: seq<Field>, t: CodeUnit, tail: Text)
    requires Unambiguous(o.dialect) && AtColumnStart(m) && |fs| > 1 && IsTerminator(o.dialect, t)
    requires forall i :: 0 <= i < |fs| ==> Readable(o, |m.fields| + i == 0, fs[i])
    requires !o.safetySwitch || |m.fields| + |fs| <= SafetyLimit
    ensures Run(o, false, m, EncodeRecord(o.dialect, fs) + [t] + tail)
         == (Finished(m.fields + fs, t), tail)
    decreases |fs|, 0
  {
    var d := o.dialect;
    var m1 := After(o, m, fs[0], d.delimiter);
    var rest := EncodeRecord(d, fs[1..]) + [t] + tail;
    assert Run(o, false, m, EncodeRecord(d, fs) + [t] + tail) == Run(o, false, m1, rest) by {
      assert Readable(o, |m.fields| + 0 == 0, fs[0]);
      NextFieldRead(o, m, fs, t, tail);
    }
    assert Run(o, false, m1, rest) == (Finished(m1.fields + fs[1..], t), tail) by {
      ReadableShift(o, |m.fields|, fs);
      FieldsRead(o, m1, fs[1..], t, tail);
    }
    assert m1.fields + fs[1..] == m.fields + fs by {
      assert fs == [fs[0]] + fs[1..];
      FieldsAssoc(m.fields, [fs[0]], fs[1..]);
    }
  }

  lemma FieldsAssoc(a: seq<Field>, b: seq<Field>, c: seq<Field>)
    ensures (a + b) + c == a + (b + c)
  {
  }

  lemma NextFieldRead(o: ReaderOptions, m: Machine, fs: seq<Field>, t: CodeUnit, tail: Text)
    requires Unambiguous(o.dialect) && AtColumnStart(m) && |fs| > 1
    requires Readable(o, |m.fields| == 0, fs[0])
    requires !o.safetySwitch || |m.fields| + 1 < SafetyLimit
    ensures Run(o, false, m, EncodeRecord(o.dialect, fs) + [t] + tail)
         == Run(o, false, After(o, m, fs[0], o.dialect.delimiter), EncodeRecord(o.dialect, fs[1..]) + [t] + tail)
  {
    var d := o.dialect;
    var rest := EncodeRecord(d, fs[1..]) + [t] + tail;
    EncodeRecordCons(d, fs);
    assert EncodeRecord(d, fs) + [t] + tail == Encode(d, fs[0]) + [d.delimiter] + rest;
    FieldRead(o, m, fs[0], d.delimiter, rest);
  }

  /** A record followed by a terminator is read back column for column, qualified flags included,
      and reading stops right after the terminator. */
  lemma RecordRead(o: ReaderOptions, last: CodeUnit, fs: seq<Field>, t: CodeUnit, tail: Text)
    requires Unambiguous(o.dialect) && RecordReadable(o, fs) && IsTerminator(o.dialect, t)
    ensures ReadOne(o, false, last, EncodeRecord(o.dialect, fs) + [t] + tail) == (Finished(fs, t), tail)
  {
    FieldsRead(o, Start(last), fs, t, tail);
    assert [] + fs == fs;
  }
}
