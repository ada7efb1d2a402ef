/** A record written by `CsvWriter.WriteRecord` and read back by `CsvReader.ReadRecord` with the same
    delimiter, qualifier, escape mode and record delimiter gives back the columns that were written. */
module RoundTrip {
  import opened Chars
  import opened Outcomes
  import opened Config
  import opened Tokenizer
  import opened Scanning
  import opened Writer
  import opened WriterFacts
  import Reader
  import ReaderFacts

  /** The columns a written record should be read back as: each text as `Write` cleaned it,
      qualified exactly when `Write` enclosed it in qualifiers. */
  function Cells(o: WriterOptions, vs: seq<Option<Text>>, preserve: bool): (r: seq<Field>)
    ensures |r| == |vs|
  {
    seq(|vs|, i requires 0 <= i < |vs| =>
      var c := Cleaned(vs[i], preserve);
      Field(c, Quotes(o, i == 0, c, preserve)))
  }

  /** Writer and reader agree on the format, qualifiers are in use, and the format is unambiguous. */
  predicate Compatible(ow: WriterOptions, or: ReaderOptions) {
    ow.dialect == or.dialect && or.dialect.useTextQualifier && Unambiguous(or.dialect)
  }

  /** The record fits under the reader's safety switch. */
  predicate Fits(or: ReaderOptions, vs: seq<Option<Text>>, preserve: bool) {
    or.safetySwitch ==>
      |vs| <= SafetyLimit && forall i :: 0 <= i < |vs| ==> |Cleaned(vs[i], preserve)| <= SafetyLimit
  }

  /** Under backslash escaping, a column written without qualifiers holds no backslash: the writer
      doubles such backslashes, but the reader decodes nothing outside qualifiers while qualifiers
      are in use. */
  predicate NoBareBackslash(o: WriterOptions, vs: seq<Option<Text>>, preserve: bool) {
    o.dialect.escapeMode == Backslash ==>
      forall i :: 0 <= i < |vs| && !Quotes(o, i == 0, Cleaned(vs[i], preserve), preserve) ==>
        BackslashChar !in Cleaned(vs[i], preserve)
  }

  /** The writer's escaping inside qualifiers is the character-by-character escaping the reader undoes. */
  lemma {:induction false} EscapeQuotedIsQuotedBody(d: Dialect, c: Text)
    requires d.escapeMode == Backslash ==> d.qualifier != BackslashChar
    ensures EscapeQuoted(d, c) == QuotedBody(d, c)
    decreases |c|
  {
    if |c| > 0 {
      var q := d.qualifier;
      var bs := BackslashChar;
      EscapeQuotedIsQuotedBody(d, c[1..]);
      if d.escapeMode == Doubled {
        assert Replace(c, q, [q, q]) == QuotedChar(d, c[0]) + Replace(c[1..], q, [q, q]);
      } else {
        var head := if c[0] == bs then [bs, bs] else [c[0]];
        var r1 := Replace(c[1..], bs, [bs, bs]);
        assert Replace(c, bs, [bs, bs]) == head + r1;
        ReplaceAppend(head, r1, q, [bs, q]);
        if c[0] == bs {
          assert Replace(head, q, [bs, q]) == [bs, bs];
        } else if c[0] == q {
          assert Replace(head, q, [bs, q]) == [bs, q];
        } else {
          assert Replace(head, q, [bs, q]) == [c[0]];
        }
      }
    }
  }

  /** Outside qualifiers, a column without backslashes, delimiters and terminators that does not
      begin a record with the comment character is written as it is. */
  lemma BareUnchanged(d: Dialect, first: bool, c: Text)
    requires d.escapeMode == Backslash ==> BackslashChar !in c
    requires d.delimiter !in c && forall x :: x in c ==> !IsTerminator(d, x)
    requires !(first && |c| > 0 && c[0] == d.comment)
    ensures EscapeBare(d, first, c) == c
  {
    if d.escapeMode == Backslash && d.recordDelimiter.Some? {
      assert d.recordDelimiter.value !in c;
    }
    if d.escapeMode == Backslash && d.recordDelimiter.None? {
      assert CR !in c && LF !in c;
    }
  }

  /** One column's text is the encoding of its cleaned content, qualified exactly when `Quotes`
      says so: with qualifiers in use, the escaping outside qualifiers only ever meets content
      that needs none. */
  lemma ColumnEncodes(o: WriterOptions, first: bool, v: Option<Text>, preserve: bool)
    requires o.dialect.useTextQualifier && Unambiguous(o.dialect)
    requires o.dialect.escapeMode == Backslash && !Quotes(o, first, Cleaned(v, preserve), preserve) ==>
      BackslashChar !in Cleaned(v, preserve)
    ensures var c := Cleaned(v, preserve);
      Column(o, first, v, preserve) == Encode(o.dialect, Field(c, Quotes(o, first, c, preserve)))
  {
    var d := o.dialect;
    var c := Cleaned(v, preserve);
    if Quotes(o, first, c, preserve) {
      EscapeQuotedIsQuotedBody(d, c);
    } else {
      assert forall x :: x in c ==> !Special(d, x);
      BareUnchanged(d, first, c);
    }
  }

  /** `Write` sends the delimiter unless the column is the first of its record, and then the
      encoding of the cleaned content that the reader takes back as one column. */
  lemma WriteIsEncoding(o: WriterOptions, first: bool, v: Option<Text>, preserve: bool)
    requires o.dialect.useTextQualifier && Unambiguous(o.dialect)
    requires o.dialect.escapeMode == Backslash && !Quotes(o, first, Cleaned(v, preserve), preserve) ==>
      BackslashChar !in Cleaned(v, preserve)
    ensures var c := Cleaned(v, preserve);
      Write(o, first, v, preserve)
        == (if first then [] else [o.dialect.delimiter]) + Encode(o.dialect, Field(c, Quotes(o, first, c, preserve)))
  {
    ColumnEncodes(o, first, v, preserve);
  }

  /** Each column is written as the encoding of its cell. */
  lemma ColumnIsEncoding(ow: WriterOptions, or: ReaderOptions, vs: seq<Option<Text>>, preserve: bool, i: nat)
    requires Compatible(ow, or) && NoBareBackslash(ow, vs, preserve) && i < |vs|
    ensures ColumnTexts(ow, true, vs, preserve)[i] == Encodings(ow.dialect, Cells(ow, vs, preserve))[i]
  {
    var d := ow.dialect;
    var c := Cleaned(vs[i], preserve);
    assert ColumnTexts(ow, true, vs, preserve)[i] == Column(ow, i == 0, vs[i], preserve);
    assert Encodings(d, Cells(ow, vs, preserve))[i] == Encode(d, Field(c, Quotes(ow, i == 0, c, preserve)));
    ColumnEncodes(ow, i == 0, vs[i], preserve);
  }

  /** The written record is the encoding of its cells. */
  lemma RecordIsEncoding(ow: WriterOptions, or: ReaderOptions, vs: seq<Option<Text>>, preserve: bool)
    requires Compatible(ow, or) && NoBareBackslash(ow, vs, preserve) && |vs| > 0
    ensures Columns(ow, true, vs, preserve) == EncodeRecord(ow.dialect, Cells(ow, vs, preserve))
  {
    var parts := ColumnTexts(ow, true, vs, preserve);
    var fs := Cells(ow, vs, preserve);
    assert Columns(ow, true, vs, preserve) == Join(parts, ow.dialect.delimiter) by {
      ColumnsJoined(ow, true, vs, preserve);
      assert [] + Join(parts, ow.dialect.delimiter) == Join(parts, ow.dialect.delimiter);
    }
    assert parts == Encodings(ow.dialect, fs) by {
      forall i | 0 <= i < |vs|
        ensures parts[i] == Encodings(ow.dialect, fs)[i]
      {
        ColumnIsEncoding(ow, or, vs, preserve, i);
      }
    }
  }

  /** Every cell can be read back from its encoding. */
  lemma CellReadable(ow: WriterOptions, or: ReaderOptions, vs: seq<Option<Text>>, preserve: bool, i: nat)
    requires Compatible(ow, or) && Fits(or, vs, preserve) && i < |vs|
    ensures Readable(or, i == 0, Cells(ow, vs, preserve)[i])
  {
    var c := Cleaned(vs[i], preserve);
    var q := Quotes(ow, i == 0, c, preserve);
    assert Cells(ow, vs, preserve)[i] == Field(c, q);
    assert or.safetySwitch ==> |c| <= SafetyLimit;
    if !q {
      BareCellReadable(ow, or, i == 0, vs[i], preserve);
    }
  }

  /** A column the writer leaves unqualified holds nothing the reader would stop at, and none of
      the padding the reader's trim would drop. */
  lemma BareCellReadable(ow: WriterOptions, or: ReaderOptions, first: bool, v: Option<Text>, preserve: bool)
    requires Compatible(ow, or) && (or.safetySwitch ==> |Cleaned(v, preserve)| <= SafetyLimit)
    requires !Quotes(ow, first, Cleaned(v, preserve), preserve)
    ensures Readable(or, first, Field(Cleaned(v, preserve), false))
  {
    var c := Cleaned(v, preserve);
    assert forall x :: x in c ==> !Special(ow.dialect, x);
    if !preserve {
      CleanedUnpadded(v, preserve);
    }
  }

  lemma CellsReadable(ow: WriterOptions, or: ReaderOptions, vs: seq<Option<Text>>, preserve: bool)
    requires Compatible(ow, or) && Fits(or, vs, preserve) && |vs| > 0
    ensures RecordReadable(or, Cells(ow, vs, preserve))
  {
    forall i | 0 <= i < |vs|
      ensures Readable(or, i == 0, Cells(ow, vs, preserve)[i])
    {
      CellReadable(ow, or, vs, preserve, i);
    }
  }

  /** The text `WriteRecord` adds for a record begun at the start of a line. */
  lemma WrittenText(ow: WriterOptions, or: ReaderOptions, w: CsvWriter, vs: seq<Option<Text>>, preserve: bool)
    requires Compatible(ow, or) && NoBareBackslash(ow, vs, preserve) && |vs| > 0
    requires w.options == ow && w.first && !w.disposed
    ensures WriteRecord(w, Some(vs), preserve).Ok?
    ensures WriteRecord(w, Some(vs), preserve).value.out[|w.out|..]
         == EncodeRecord(ow.dialect, Cells(ow, vs, preserve)) + RecordEnd(ow)
  {
    WriteRecordText(w, vs, preserve);
    var out := WriteRecord(w, Some(vs), preserve).value.out;
    var c := Columns(ow, true, vs, preserve);
    var e := RecordEnd(ow);
    assert out == w.out + (c + e) by {
      AppendAssoc(w.out, c, e);
    }
    assert out[|w.out|..] == c + e;
    assert c == EncodeRecord(ow.dialect, Cells(ow, vs, preserve)) by {
      RecordIsEncoding(ow, or, vs, preserve);
    }
  }

  /** The round trip: a record written at the start of a line and read back gives every column's
      cleaned text, qualified exactly when it was written in qualifiers; reading stops after the
      first character of the record end (under CR LF the LF is left for the next call, which skips it). */
  lemma RecordRoundTrip(ow: WriterOptions, or: ReaderOptions, w: CsvWriter, vs: seq<Option<Text>>, preserve: bool,
                        last: CodeUnit, tail: Text)
    requires Compatible(ow, or) && Fits(or, vs, preserve) && NoBareBackslash(ow, vs, preserve) && |vs| > 0
    requires w.options == ow && w.first && !w.disposed
    ensures WriteRecord(w, Some(vs), preserve).Ok?
    ensures var written := WriteRecord(w, Some(vs), preserve).value.out[|w.out|..];
      var (m, rest) := ReadOne(or, false, last, written + tail);
      && m.status.Ended?
      && m.fields == Cells(ow, vs, preserve)
      && rest == RecordEnd(ow)[1..] + tail
  {
    WrittenText(ow, or, w, vs, preserve);
    var fs := Cells(ow, vs, preserve);
    var e := RecordEnd(ow);
    CellsReadable(ow, or, vs, preserve);
    var t := e[0];
    assert IsTerminator(or.dialect, t);
    assert e == [t] + e[1..];
    AppendAssoc(EncodeRecord(or.dialect, fs), [t], e[1..]);
    AppendAssoc(EncodeRecord(or.dialect, fs) + [t], e[1..], tail);
    RecordRead(or, last, fs, t, e[1..] + tail);
  }

  /** The same round trip through the reader's public members: on a reader whose unread input starts
      with the written record, `ReadRecord` returns true, counts one record, and the indexer and
      `IsQualified` give back every written column. */
  lemma ReaderRoundTrip(ow: WriterOptions, w: CsvWriter, vs: seq<Option<Text>>, preserve: bool,
                        r: Reader.CsvReader, tail: Text)
    requires Compatible(ow, r.options) && Fits(r.options, vs, preserve) && NoBareBackslash(ow, vs, preserve) && |vs| > 0
    requires w.options == ow && w.first && !w.disposed
    requires !r.disposed && r.more
    requires WriteRecord(w, Some(vs), preserve).Ok?
    requires r.input == WriteRecord(w, Some(vs), preserve).value.out[|w.out|..] + tail
    ensures var c := Reader.ReadRecord(r);
      && c.value == Ok(true)
      && c.next.counter == (r.counter + 1) % Reader.RecordCounterModulus
      && |c.next.record| == |vs|
      && (forall i :: 0 <= i < |vs| ==> Reader.ColumnAt(c.next, i) == Ok(Cleaned(vs[i], preserve)))
      && (forall i :: 0 <= i < |vs| ==> Reader.IsQualified(c.next, i) == Ok(Quotes(ow, i == 0, Cleaned(vs[i], preserve), preserve)))
  {
    var fs := Cells(ow, vs, preserve);
    var p := ReadOne(r.options, false, r.last, r.input);
    assert p.0.status == Ended && p.0.fields == fs by {
      RecordRoundTrip(ow, r.options, w, vs, preserve, r.last, tail);
    }
    var c := Reader.ReadRecord(r);
    ReaderFacts.ReadRecordEnded(r, p.0, p.1);
    forall i | 0 <= i < |vs|
      ensures Reader.ColumnAt(c.next, i) == Ok(Cleaned(vs[i], preserve))
      ensures Reader.IsQualified(c.next, i) == Ok(Quotes(ow, i == 0, Cleaned(vs[i], preserve), preserve))
    {
      assert c.next.record[i] == fs[i];
    }
  }
}
