/** What `CsvWriter` promises about the text it writes. */
module WriterFacts {
  import opened Chars
  import opened Outcomes
  import opened Config
  import opened Writer

  /** A column is enclosed in qualifiers exactly when the qualifier is forced; or qualifiers are in
      use and the column holds a terminator, the qualifier or the delimiter, or it is the first
      column of its record and is empty or begins with the comment character, or spaces are
      preserved and it begins or ends with a space or a tab. */
  lemma QuotedExactlyWhen(o: WriterOptions, first: bool, c: Text, preserve: bool)
    ensures Quotes(o, first, c, preserve) <==>
      || o.forceQualifier
      || (o.dialect.useTextQualifier &&
          (|| (exists i :: 0 <= i < |c| && Special(o.dialect, c[i]))
           || (first && (|c| == 0 || c[0] == o.dialect.comment))
           || (preserve && |c| > 0 && (IsSpaceOrTab(c[0]) || IsSpaceOrTab(c[|c| - 1])))))
  {
    var d := o.dialect;
    if exists i :: 0 <= i < |c| && Special(d, c[i]) {
      var i :| 0 <= i < |c| && Special(d, c[i]);
      assert c[i] in c;
    }
    if exists x :: x in c && Special(d, x) {
      var x :| x in c && Special(d, x);
      var i :| 0 <= i < |c| && c[i] == x;
    }
  }

  /** Without qualifiers in use nothing but `ForceQualifier` encloses a column. */
  lemma NoQualifiersUnlessForced(o: WriterOptions, first: bool, c: Text, preserve: bool)
    requires !o.dialect.useTextQualifier
    ensures Quotes(o, first, c, preserve) == o.forceQualifier
  {
  }

  /** Null content is written exactly like the empty string. */
  lemma NullIsEmpty(o: WriterOptions, first: bool, preserve: bool)
    ensures Write(o, first, None, preserve) == Write(o, first, Some([]), preserve)
  {
  }

  /** An empty column that is not the first of its record is written as nothing at all after the
      delimiter, unless qualifiers are forced. */
  lemma EmptyColumnBare(o: WriterOptions, content: Option<Text>, preserve: bool)
    requires !o.forceQualifier && Cleaned(content, preserve) == []
    ensures Write(o, false, content, preserve) == [o.dialect.delimiter]
  {
    assert !(exists x :: x in Cleaned(content, preserve) && Special(o.dialect, x));
  }

  /** The first column of a record is never written as nothing: an empty one is enclosed. */
  lemma EmptyFirstColumnQuoted(o: WriterOptions, content: Option<Text>, preserve: bool)
    requires o.dialect.useTextQualifier && Cleaned(content, preserve) == []
    ensures Write(o, true, content, preserve) == [o.dialect.qualifier, o.dialect.qualifier]
  {
    assert Replace([], o.dialect.qualifier, [o.dialect.qualifier, o.dialect.qualifier]) == [];
  }

  /** Unless spaces are preserved, the column text has no space or tab at either end, and trimming
      it again changes nothing. */
  lemma CleanedUnpadded(content: Option<Text>, preserve: bool)
    requires !preserve
    ensures var c := Cleaned(content, preserve);
      (|c| == 0 || (!IsSpaceOrTab(c[0]) && !IsSpaceOrTab(c[|c| - 1]))) && TrimSpaceTab(c) == c
  {
    var c := Cleaned(content, preserve);
    TrimSpaceTabUnpadded(c);
  }

  /** A qualifier inside a doubled-escaped column: undoing the doubling gives the column back. */
  function Undouble(q: CodeUnit, t: Text): (r: Text)
    decreases |t|
  {
    if |t| >= 2 && t[0] == q && t[1] == q then [q] + Undouble(q, t[2..])
    else if |t| == 0 then []
    else [t[0]] + Undouble(q, t[1..])
  }

  lemma {:induction false} UndoubleDoubled(q: CodeUnit, c: Text)
    ensures Undouble(q, Replace(c, q, [q, q])) == c
    decreases |c|
  {
    if |c| > 0 {
      var rest := Replace(c[1..], q, [q, q]);
      if c[0] == q {
        assert Replace(c, q, [q, q]) == [q, q] + rest;
        assert ([q, q] + rest)[2..] == rest;
      } else {
        assert Replace(c, q, [q, q]) == [c[0]] + rest;
        assert ([c[0]] + rest)[1..] == rest;
      }
      UndoubleDoubled(q, c[1..]);
    }
  }

  /** Under doubled escaping, a column that is enclosed holds its text with every qualifier doubled,
      and no lone qualifier: removing the doubling restores the text. */
  lemma DoubledColumn(o: WriterOptions, first: bool, content: Option<Text>, preserve: bool)
    requires o.dialect.escapeMode == Doubled
    requires Quotes(o, first, Cleaned(content, preserve), preserve)
    ensures var q := o.dialect.qualifier;
      var t := Column(o, first, content, preserve);
      |t| >= 2 && t[0] == q && t[|t| - 1] == q && Undouble(q, t[1..|t| - 1]) == Cleaned(content, preserve)
  {
    var q := o.dialect.qualifier;
    var c := Cleaned(content, preserve);
    var e := Replace(c, q, [q, q]);
    var t := Column(o, first, content, preserve);
    assert t == [q] + e + [q];
    assert t[1..|t| - 1] == e;
    UndoubleDoubled(q, c);
  }

  /** The writer's backslash escaping for a column in qualifiers, undone: a backslash always
      escapes the one character after it. */
  function Unbackslash(t: Text): (r: Text)
    decreases |t|
  {
    if |t| >= 2 && t[0] == BackslashChar then [t[1]] + Unbackslash(t[2..])
    else if |t| == 0 then []
    else [t[0]] + Unbackslash(t[1..])
  }

  /** Backslashes are doubled before qualifiers are escaped, so no character is escaped twice:
      the result is every backslash and every qualifier preceded by one backslash. */
  lemma {:induction false} BackslashEscapedOnce(q: CodeUnit, c: Text)
    requires q != BackslashChar
    ensures var e := Replace(Replace(c, BackslashChar, [BackslashChar, BackslashChar]), q, [BackslashChar, q]);
      Unbackslash(e) == c
    decreases |c|
  {
    if |c| > 0 {
      var bs := BackslashChar;
      var head := if c[0] == bs then [bs, bs] else [c[0]];
      var r1 := Replace(c[1..], bs, [bs, bs]);
      assert Replace(c, bs, [bs, bs]) == head + r1;
      ReplaceAppend(head, r1, q, [bs, q]);
      var rest := Replace(r1, q, [bs, q]);
      if c[0] == bs {
        assert Replace(head, q, [bs, q]) == [bs, bs];
        assert ([bs, bs] + rest)[2..] == rest;
      } else if c[0] == q {
        assert Replace(head, q, [bs, q]) == [bs, q];
        assert ([bs, q] + rest)[2..] == rest;
      } else {
        assert Replace(head, q, [bs, q]) == [c[0]];
        assert ([c[0]] + rest)[1..] == rest;
      }
      BackslashEscapedOnce(q, c[1..]);
    }
  }

  /** Under backslash escaping, a column in qualifiers is the text with backslash escapes, and
      undoing them restores the text. */
  lemma BackslashColumn(o: WriterOptions, first: bool, content: Option<Text>, preserve: bool)
    requires o.dialect.escapeMode == Backslash && o.dialect.qualifier != BackslashChar
    requires Quotes(o, first, Cleaned(content, preserve), preserve)
    ensures var q := o.dialect.qualifier;
      var t := Column(o, first, content, preserve);
      |t| >= 2 && t[0] == q && t[|t| - 1] == q && Unbackslash(t[1..|t| - 1]) == Cleaned(content, preserve)
  {
    var q := o.dialect.qualifier;
    var c := Cleaned(content, preserve);
    var e := EscapeQuoted(o.dialect, c);
    var t := Column(o, first, content, preserve);
    assert t == [q] + e + [q];
    assert t[1..|t| - 1] == e;
    BackslashEscapedOnce(q, c);
  }

  /** Without qualifiers and under backslash escaping, with the default record terminators, a
      column without backslashes and delimiters is written as it is: the CR and LF it holds are not
      escaped, because the code rewrites backslashes where it tests for CR and LF. */
  lemma BareNewlinesNotEscaped(d: Dialect, first: bool, c: Text)
    requires d.escapeMode == Backslash && d.recordDelimiter.None?
    requires BackslashChar !in c && d.delimiter !in c && !(first && |c| > 0 && c[0] == d.comment)
    ensures EscapeBare(d, first, c) == c
  {
  }

  /** The same branch applied to a backslash followed by an LF: the backslash is doubled and then
      every backslash is followed by an LF, so the one LF becomes three. */
  lemma BareBackslashNewlineRewritten(d: Dialect)
    requires d.escapeMode == Backslash && d.recordDelimiter.None?
    requires d.delimiter != BackslashChar && d.delimiter != LF && d.comment != BackslashChar
    ensures EscapeBare(d, false, [BackslashChar, LF]) == [BackslashChar, LF, BackslashChar, LF, LF]
  {
    var bs := BackslashChar;
    assert Replace([bs, LF], bs, [bs, bs]) == [bs, bs, LF] by {
      assert [bs, LF][1..] == [LF];
      assert [LF][1..] == [];
    }
    assert Replace([bs, bs, LF], d.delimiter, [bs, d.delimiter]) == [bs, bs, LF] by {
      assert d.delimiter !in [bs, bs, LF];
    }
    assert CR !in [bs, bs, LF];
    assert LF in [bs, bs, LF];
    assert Replace([bs, bs, LF], bs, [bs, LF]) == [bs, LF, bs, LF, LF] by {
      assert [bs, bs, LF][1..] == [bs, LF];
      assert [bs, LF][1..] == [LF];
      assert [LF][1..] == [];
    }
  }

  /** A comment line is the comment character, the text and the record end; afterwards the next
      column is the first of a record. */
  lemma CommentLine(w: CsvWriter, text: Text)
    requires !w.disposed
    ensures WriteComment(w, Some(text)).Ok?
    ensures var w' := WriteComment(w, Some(text)).value;
      w'.first && w'.out[|w.out|..] == [w.options.dialect.comment] + text + RecordEnd(w.options)
  {
  }

  /** `WriteRecord` writes the columns joined by delimiters, then the record end, when the writer
      starts a record. */
  lemma WriteRecordText(w: CsvWriter, vs: seq<Option<Text>>, preserve: bool)
    requires !w.disposed && w.first && |vs| > 0
    ensures WriteRecord(w, Some(vs), preserve).Ok?
    ensures var w' := WriteRecord(w, Some(vs), preserve).value;
      w'.first && w'.out == w.out + Columns(w.options, true, vs, preserve) + RecordEnd(w.options)
  {
  }

  /** The texts of the columns of `vs` on their own, the first written as column `first`. */
  function ColumnTexts(o: WriterOptions, first: bool, vs: seq<Option<Text>>, preserve: bool): (r: seq<Text>)
    ensures |r| == |vs|
  {
    seq(|vs|, i requires 0 <= i < |vs| => Column(o, first && i == 0, vs[i], preserve))
  }

  lemma ColumnsCons(o: WriterOptions, first: bool, vs: seq<Option<Text>>, preserve: bool)
    requires |vs| > 0
    ensures Columns(o, first, vs, preserve)
         == ((if first then [] else [o.dialect.delimiter]) + ColumnTexts(o, first, vs, preserve)[0]) + Columns(o, false, vs[1..], preserve)
  {
  }

  lemma ColumnTextsTail(o: WriterOptions, first: bool, vs: seq<Option<Text>>, preserve: bool)
    requires |vs| > 0
    ensures ColumnTexts(o, first, vs, preserve)[1..] == ColumnTexts(o, false, vs[1..], preserve)
  {
    var a := ColumnTexts(o, first, vs, preserve)[1..];
    var b := ColumnTexts(o, false, vs[1..], preserve);
    forall i | 0 <= i < |a|
      ensures a[i] == b[i]
    {
      ColumnTextAfterFirst(o, first, vs, preserve, i);
    }
  }

  lemma ColumnTextAfterFirst(o: WriterOptions, first: bool, vs: seq<Option<Text>>, preserve: bool, i: nat)
    requires i + 1 < |vs|
    ensures ColumnTexts(o, first, vs, preserve)[i + 1] == ColumnTexts(o, false, vs[1..], preserve)[i]
  {
    ColumnTextAt(o, first, vs, preserve, i + 1);
    ColumnTextAt(o, false, vs[1..], preserve, i);
    assert vs[1..][i] == vs[i + 1];
  }

  /** A column after the first is written as a column that is not first. */
  lemma ColumnTextAt(o: WriterOptions, first: bool, vs: seq<Option<Text>>, preserve: bool, i: nat)
    requires 0 < i < |vs| || (i == 0 < |vs| && !first)
    ensures ColumnTexts(o, first, vs, preserve)[i] == Column(o, false, vs[i], preserve)
  {
  }

  /** The delimiter is written between the columns of a record and before none but the first: the
      record's text is its column texts joined by delimiters. */
  lemma {:induction false} ColumnsJoined(o: WriterOptions, first: bool, vs: seq<Option<Text>>, preserve: bool)
    requires |vs| > 0
    ensures Columns(o, first, vs, preserve)
         == (if first then [] else [o.dialect.delimiter]) + Join(ColumnTexts(o, first, vs, preserve), o.dialect.delimiter)
    decreases |vs|
  {
    var d := o.dialect.delimiter;
    var parts := ColumnTexts(o, first, vs, preserve);
    var lead: Text := if first then [] else [d];
    ColumnsCons(o, first, vs, preserve);
    var rest := Columns(o, false, vs[1..], preserve);
    if |vs| == 1 {
      assert rest == [];
      assert Join(parts, d) == parts[0];
      assert (lead + parts[0]) + rest == lead + parts[0];
    } else {
      ColumnsJoined(o, false, vs[1..], preserve);
      ColumnTextsTail(o, first, vs, preserve);
      var j := Join(parts[1..], d);
      assert rest == [d] + j;
      assert Join(parts, d) == parts[0] + [d] + j;
      AppendAssoc(lead + parts[0], [d], j);
      AppendAssoc(lead, parts[0], [d] + j);
      AppendAssoc(lead, parts[0] + [d], j);
    }
  }
}
