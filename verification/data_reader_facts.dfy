/** What the data reader's rules promise. */
module DataReaderFacts {
  import opened Chars
  import opened Outcomes
  import opened Config
  import opened Tokenizer
  import opened Reader
  import opened ReaderFacts
  import opened DataReader

  /** The three type tables know exactly the same type names. */
  lemma TablesShareKeys()
    ensures DbTypeMappings.Keys == NameMappings.Keys == TypeMappings.Keys
    ensures forall u :: Known(u) <==> u in DbTypeMappings
  {
  }

  lemma UpperNameIdempotent(s: string)
    ensures UpperName(UpperName(s)) == UpperName(s)
  {
  }

  /** Type names are looked up case-insensitively: two spellings that differ only in the case of
      their letters declare the same column, and the declared column is the one the upper-case
      spelling declares. */
  lemma TypeNamesCaseInsensitive(s1: string, s2: string, name: Option<Text>)
    requires UpperName(s1) == UpperName(s2)
    ensures NewColumn(Some(s1), name) == NewColumn(Some(s2), name)
    ensures NewColumn(Some(s1), name) == NewColumn(Some(UpperName(s1)), name)
  {
    UpperNameIdempotent(s1);
  }

  /** A column declared as "int" reads integers, and an unknown type name is rejected. */
  lemma SomeDeclarations()
    ensures NewColumn(Some("int"), None) == Ok(Column(IntType, "int", Int32, None, None))
    ensures NewColumn(Some("varchar2"), None) == Err(UnknownDataType)
  {
    assert UpperName("int") == "INT";
    assert UpperName("varchar2") == "VARCHAR2";
  }

  /** `GetValue` returns the column's default exactly when `IsDBNull` says DBNull. */
  lemma NullIffDefault(value: Option<Text>, t: DbType, format: Option<Text>, qualified: bool)
    ensures IsNullValue(value, t, qualified) <==> Convert(value, t, format, qualified) == Default
  {
  }

  /** The classification of `IsDBNull`: null is DBNull; for other types the text is trimmed first
      and empty is DBNull; an empty string column is DBNull unless it was qualified; anything
      non-empty never is. */
  lemma NullClassification(value: Option<Text>, t: DbType, qualified: bool)
    ensures value.None? ==> IsNullValue(value, t, qualified)
    ensures value.Some? && t != String ==> (IsNullValue(value, t, qualified) <==> |TrimWhiteSpace(value.value)| == 0)
    ensures value.Some? && t == String ==> (IsNullValue(value, t, qualified) <==> |value.value| == 0 && !qualified)
  {
  }

  /** A qualified empty string column reads as the empty string, not as the default. */
  lemma QualifiedEmptyIsString(format: Option<Text>)
    ensures Convert(Some([]), String, format, true) == Str([])
    ensures Convert(Some([]), String, format, false) == Default
  {
  }

  lemma ToUpperIdempotent(s: Text)
    ensures ToUpper(ToUpper(s)) == ToUpper(s)
  {
  }

  /** The token tables as code units. */
  lemma TrueTokensSpelled()
    ensures TrueTokens == {[84, 82, 85, 69], [84], [89, 69, 83], [89], [49], [45, 49]}
  {
    assert FromString("TRUE") == [84, 82, 85, 69];
    assert FromString("T") == [84];
    assert FromString("YES") == [89, 69, 83];
    assert FromString("Y") == [89];
    assert FromString("1") == [49];
    assert FromString("-1") == [45, 49];
  }

  lemma FalseTokensSpelled()
    ensures FalseTokens == {[70, 65, 76, 83, 69], [70], [78, 79], [78], [48]}
  {
    assert FromString("FALSE") == [70, 65, 76, 83, 69];
    assert FromString("F") == [70];
    assert FromString("NO") == [78, 79];
    assert FromString("N") == [78];
    assert FromString("0") == [48];
  }

  /** Text without lower-case ASCII letters is its own upper case. */
  lemma UpperFixed(s: Text)
    requires forall i :: 0 <= i < |s| ==> !(97 <= s[i] <= 122)
    ensures ToUpper(s) == s
  {
  }

  /** No token is both true and false, and the upper-cased table entries are their own upper case,
      so every spelling of them is recognised. */
  lemma BoolTokensWellFormed()
    ensures TrueTokens * FalseTokens == {}
    ensures forall u :: u in TrueTokens + FalseTokens ==> ToUpper(u) == u
  {
    TokensDisjoint();
    TrueTokensUpper();
    FalseTokensUpper();
  }

  lemma TokensDisjoint()
    ensures TrueTokens * FalseTokens == {}
  {
    TrueTokensSpelled();
    FalseTokensSpelled();
  }

  lemma TrueTokensUpper()
    ensures forall u :: u in TrueTokens ==> ToUpper(u) == u
  {
    TrueTokensSpelled();
    forall u | u in TrueTokens
      ensures ToUpper(u) == u
    {
      UpperFixed(u);
    }
  }

  lemma FalseTokensUpper()
    ensures forall u :: u in FalseTokens ==> ToUpper(u) == u
  {
    FalseTokensSpelled();
    forall u | u in FalseTokens
      ensures ToUpper(u) == u
    {
      UpperFixed(u);
    }
  }

  /** A boolean column with non-blank text: the upper-cased, trimmed text is looked up in the token
      table, and only text that is no token at all goes to `Boolean.Parse`. */
  lemma BooleanColumn(value: Text, format: Option<Text>, qualified: bool)
    requires |TrimWhiteSpace(value)| > 0
    ensures var s := TrimWhiteSpace(value);
      && (Convert(Some(value), Boolean, format, qualified) == Bool(true) <==> ToUpper(s) in TrueTokens)
      && (Convert(Some(value), Boolean, format, qualified) == Bool(false) <==> ToUpper(s) in FalseTokens)
      && (ToUpper(s) !in TrueTokens + FalseTokens ==> Convert(Some(value), Boolean, format, qualified) == BooleanParse(s))
  {
  }

  /** Tokens are recognised whatever the case of their letters. */
  lemma BooleanCaseInsensitive(v1: Text, v2: Text, format: Option<Text>, qualified: bool)
    requires ToUpper(TrimWhiteSpace(v1)) == ToUpper(TrimWhiteSpace(v2))
    requires ToUpper(TrimWhiteSpace(v1)) in TrueTokens + FalseTokens
    ensures Convert(Some(v1), Boolean, format, qualified) == Convert(Some(v2), Boolean, format, qualified)
  {
    var s1, s2 := TrimWhiteSpace(v1), TrimWhiteSpace(v2);
    assert |s1| > 0 && |s2| > 0 by {
      TokensNonEmpty();
      assert |ToUpper(s1)| == |s1| && |ToUpper(s2)| == |s2|;
    }
    TokensDisjoint();
    BooleanColumn(v1, format, qualified);
    BooleanColumn(v2, format, qualified);
  }

  lemma TokensNonEmpty()
    ensures [] !in TrueTokens + FalseTokens
  {
    TrueTokensSpelled();
    FalseTokensSpelled();
  }

  /** "yes", "Yes" and "-1" spell true; "no" and "f" spell false. */
  lemma SomeBooleanSpellings()
    ensures ToUpper(FromString("yes")) in TrueTokens && ToUpper(FromString("Yes")) in TrueTokens
    ensures FromString("-1") in TrueTokens
    ensures ToUpper(FromString("no")) in FalseTokens && ToUpper(FromString("f")) in FalseTokens
  {
    TrueSpellings();
    FalseSpellings();
  }

  lemma TrueSpellings()
    ensures ToUpper(FromString("yes")) in TrueTokens && ToUpper(FromString("Yes")) in TrueTokens
    ensures FromString("-1") in TrueTokens
  {
    TrueTokensSpelled();
    assert FromString("yes") == [121, 101, 115] && FromString("Yes") == [89, 101, 115];
    assert ToUpper([121, 101, 115]) == [89, 69, 83] && ToUpper([89, 101, 115]) == [89, 69, 83];
    assert FromString("-1") == [45, 49];
  }

  lemma FalseSpellings()
    ensures ToUpper(FromString("no")) in FalseTokens && ToUpper(FromString("f")) in FalseTokens
  {
    FalseTokensSpelled();
    assert FromString("no") == [110, 111] && ToUpper([110, 111]) == [78, 79];
    assert FromString("f") == [102] && ToUpper([102]) == [70];
  }


  /** The index `CheckInit` builds sends each name to the last column that has it, and knows no
      other name. */
  lemma {:induction false} IndexResolvedLastWins(names: seq<Option<Text>>, n: Text)
    ensures n in IndexResolved(names) <==> Some(n) in names
    ensures Some(n) in names ==>
      var k := IndexResolved(names)[n];
      0 <= k < |names| && names[k] == Some(n) && forall j :: k < j < |names| ==> names[j] != Some(n)
    decreases |names|
  {
    if |names| > 0 {
      var k := |names| - 1;
      var init := names[..k];
      IndexResolvedLastWins(init, n);
      assert names == init + [names[k]];
      if names[k] != Some(n) && Some(n) in names {
        var i :| 0 <= i < |names| && names[i] == Some(n);
        assert init[i] == Some(n);
      }
    }
  }

  /** A column's own name overrides the header at its position; without either it has no name. */
  lemma NamesResolved(columns: seq<Column>, headers: seq<Text>, k: nat)
    requires k < |columns|
    ensures columns[k].name.Some? ==> ResolveNames(columns, headers)[k] == columns[k].name
    ensures columns[k].name.None? && k < |headers| ==> ResolveNames(columns, headers)[k] == Some(headers[k])
    ensures columns[k].name.None? && k >= |headers| ==> ResolveNames(columns, headers)[k].None?
  {
  }

  /** `GetOrdinal` for a name: the last column whose resolved name it is (its own `Name`, or the
      header at its position when a header row was read), or -1 when no column has it. */
  lemma OrdinalOfNamedColumn(d: CsvDataReader, n: Text)
    requires !d.disposed && !d.initialized && |d.columns| > 0
    ensures GetOrdinal(d, Some(n)).value.Ok? <==> CheckInit(d).value.Ok?
    ensures var c := GetOrdinal(d, Some(n));
      var names := ResolveNames(d.columns, HeaderRow(d));
      c.value.Ok? ==>
        && (Some(n) !in names ==> c.value.value == -1)
        && (Some(n) in names ==> var k := c.value.value;
              0 <= k < |d.columns| && names[k] == Some(n)
              && forall j :: k < j < |d.columns| ==> names[j] != Some(n))
  {
    var init := CheckInit(d);
    if init.value.Ok? {
      IndexResolvedLastWins(init.next.names, n);
    }
  }

  /** With `HasHeaders` and a header row in the input, `GetName` gives each column its own `Name`
      when it has one, otherwise the header at its position, and no name past the last header. */
  lemma HeaderNamesResolved(d: CsvDataReader, i: int)
    requires !d.disposed && !d.initialized && |d.columns| > 0 && d.hasHeaders
    requires 0 <= i < |d.columns|
    ensures var h := ReadHeaders(d.reader);
      h.value == Ok(true) ==>
        && !h.next.disposed
        && GetName(d, i).value == Ok(if d.columns[i].name.Some? then d.columns[i].name
                                     else if i < h.next.headerCount then Some(GetHeader(h.next, i).value)
                                     else None)
  {
    var h := ReadHeaders(d.reader);
    if h.value == Ok(true) {
      assert !d.reader.disposed && d.reader.more;
      ReadHeadersCaptures(d.reader);
      assert Coherent(h.next);
      NamesResolved(d.columns, HeaderRow(d), i);
    }
  }

  /** A column added after `CheckInit` has no name slot, so `GetName` for it throws
      IndexOutOfRange although the index check passes. */
  lemma AddedColumnUnnamed(d: CsvDataReader, col: Column)
    requires !d.disposed && !d.initialized && |d.columns| > 0 && CheckInit(d).value.Ok?
    ensures var d1 := CheckInit(d).next.(columns := d.columns + [col]);
      CheckColumnIndex(d1, |d.columns|).Ok? && GetName(d1, |d.columns|).value == Err(IndexOutOfRange)
  {
  }

  /** The `Read` loop: true means a record was read that the handler kept, and the values are that
      record's columns; false means the input is exhausted. */
  lemma {:induction false} ReadLoopOutcome(d: CsvDataReader, skip: seq<Option<Text>> -> bool)
    requires !d.disposed && d.values.Some?
    ensures var c := ReadLoop(d, skip);
      && (c.value == Ok(true) ==>
            && !c.next.reader.disposed && c.next.values.Some? && !skip(c.next.values.value)
            && c.next.values.value == Fill(c.next.reader, |d.values.value|) && |c.next.reader.record| >= 1)
      && (c.value == Ok(false) ==> !c.next.reader.more && c.next.reader.record == [])
      && (c.value.Ok? ==> c.next.columns == d.columns && !c.next.reader.disposed)
    decreases Remaining(d.reader)
  {
    var call := ReadRecord(d.reader);
    if !d.reader.disposed {
      ReadRecordOutcome(d.reader);
    }
    if call.value == Ok(true) {
      var vs := Fill(call.next, |d.values.value|);
      var d' := d.(reader := call.next, values := Some(vs));
      ReadProgress(d.reader);
      if skip(vs) {
        ReadLoopOutcome(d', skip);
      }
    }
  }

  /** Without a handler, `Read` is one `ReadRecord`. */
  lemma ReadWithoutHandler(d: CsvDataReader)
    requires !d.disposed && d.initialized && d.values.Some?
    ensures var c := Read(d, _ => false);
      var call := ReadRecord(d.reader);
      c.value == call.value && c.next.reader == call.next
  {
  }

  /** Column ordinals outside the declared columns are rejected by `IsDBNull` and `GetValue`. */
  lemma OrdinalsChecked(d: CsvDataReader, i: int)
    requires !d.disposed && !(0 <= i < |d.columns|)
    ensures IsDbNull(d, i) == Err(IndexOutOfRange) && GetValue(d, i) == Err(IndexOutOfRange)
  {
  }

  /** On a data reader holding a record, `IsDBNull` and `GetValue` both answer for every declared
      column, and `IsDBNull` says DBNull exactly when `GetValue` returns the column's default. */
  lemma DbNullIffDefaultValue(d: CsvDataReader, i: int)
    requires !d.disposed && !d.reader.disposed && d.values.Some?
    requires 0 <= i < |d.columns| && i < |d.values.value|
    ensures IsDbNull(d, i).Ok? && GetValue(d, i).Ok?
    ensures IsDbNull(d, i).value <==> GetValue(d, i).value == Default
  {
    var v := d.values.value[i];
    var c := d.columns[i];
    var q := AsksQualified(v, c.dbType) && IsQualified(d.reader, i).value;
    NullIffDefault(v, c.dbType, c.format, q);
  }
}
