# CSV reader, writer and data-reader rules in Dafny

This project models the core of a CSV library written in C#. It has three parts.

- **`CsvReader.ReadRecord` and the reader around it.**
  - The tokenizer is a character-driven state machine. Its phases are:
    - between columns;
    - inside an unqualified column;
    - inside a qualified column, with the "qualifier just seen", "escape pending" and "junk after the closing qualifier" flags;
    - a numeric-escape payload counter;
    - the rest of a comment line.
  - `Tokenizer.Step` makes one transition. `Tokenizer.Run` folds it over the unread input until the record ends, the safety switch trips, or the input runs out. `Tokenizer.Flush` is the end-of-input rule.
  - `Reader.ReadRecord`, `ReadHeaders`, `SkipRecord` and `SkipLine` wrap the tokenizer. So do the accessors (the indexers, `GetIndex`, `GetLength`, `IsQualified`, `GetHeader`, `Values`, `Headers`, `CurrentRecord`) and `Close`.
  - Each one returns the reader after the call, together with its result or the exception it throws.
- **`CsvWriter.Write` and its record helpers.**
  - `Write` is a pure function. Its inputs are the writer's settings, the `firstColumn` flag, the content and `preserveSpaces`. It returns the text written.
  - `EndRecord`, `WriteComment`, `WriteRecord` and `Close` act on a writer value whose output stream is the text written so far.
- **The decision rules of `CsvDataReader`:**
  - the three type tables and the case-insensitive type-name lookup of `Column`;
  - the `Format` guard;
  - the name resolution of `CheckInit`, `GetOrdinal` and `GetName`;
  - the column-index check;
  - the `Read` loop with its skip handler;
  - the null, empty and qualified classification of `IsDBNull`;
  - the default-value and boolean-token rules of `GetValue`.

**Characters.** A character is a UTF-16 code unit, `Chars.CodeUnit` (0 to 65535), because numeric escapes can produce any code unit, surrogates included. The C# `char` arithmetic of numeric escapes wraps modulo 65536, and digits are not validated. The model writes that wrap-around out as `Chars.Wrap`.

**Input.** The input is the whole remaining text. The reader refills its buffer in chunks of 1024 characters, but all tokenizer state lives in locals that survive a refill, so chunk boundaries do not change the result. That rests on the source's structure: the loop state is kept in locals (CsvReader.cs:654-660) that live on across the jump back at CsvReader.cs:857 after a refill. `TokenizerFacts.RunAppend` is the model's counterpart of that fact, not a proof of it: reading `a + b` with `Tokenizer.Run` is reading `a` and then `b`.

**Round trip.** `RoundTrip.RecordRoundTrip` and `RoundTrip.ReaderRoundTrip` prove that a record written by `WriteRecord` and read back by `ReadRecord` gives back every written column. Each column comes back with its text as `Write` cleaned it, and qualified exactly when it was written in qualifiers. The round trip is proved only under these conditions:

- `RoundTrip.Compatible`: writer and reader share the dialect, and qualifiers are in use.
- The dialect is `Config.Unambiguous`:
  - the delimiter is not the qualifier;
  - neither the delimiter nor the qualifier is a record terminator (CR or LF, or the custom record delimiter);
  - under backslash escaping, neither the delimiter, the qualifier nor a record terminator is a backslash.
- `RoundTrip.Fits`: when the reader's safety switch is on, there are at most 100,000 columns, each of at most 100,000 characters.
- `RoundTrip.NoBareBackslash`: under backslash escaping, no column written without qualifiers holds a backslash.
- The record has at least one column.

Nothing is proved with qualifiers off or for an empty record; for an empty array `WriteRecord` writes nothing at all.

The proof chain is:

1. `WriterFacts.ColumnsJoined` and `RoundTrip.RecordIsEncoding`: the writer's text is the encoding of the columns.
2. `Scanning.RecordRead`: the tokenizer reads that encoding back.

Where the code and the prose description of the library disagree, the model follows the code:

- `\u` keeps the radix of the previous numeric escape in the same column (`EscapeReading.UnicodeEscapeReusesRadix`). It does not always take four hex digits.
- Padding at either end of the content makes `Write` use qualifiers only when qualifiers are in use (CsvWriter.cs:175).
- Outside qualifiers, under backslash escaping and with no custom record delimiter, `Write` inserts a CR or LF after every backslash instead of escaping CR and LF (`WriterFacts.BareBackslashNewlineRewritten`).
- Under backslash escaping, the writer escapes backslashes outside qualifiers, but while qualifiers are in use the reader decodes nothing outside them. The round trip therefore needs `RoundTrip.NoBareBackslash`.
- `SkipRecord` stores no columns. A line that ends in a delimiter therefore looks empty to it, and it skips the next line as well (`ReadingRules.SkipRecordRunsOn`).
- The empty column flushed after a trailing delimiter at the end of the input keeps the qualified flag of the column before it (`ReadingRules.TrailingDelimiterFlushed`).

## Model

| member | source | states |
|---|---|---|
| Chars.Wrap | CsvReader.cs:413-454 | the 16-bit `char` arithmetic of a numeric escape keeps the integer result modulo 65536; a result already in range is unchanged |
| Chars.Trim | CsvWriter.cs:167-170 | trimming leaves the slice between the leading and the trailing run of padding: it begins and ends with a non-padding character, and every character cut off is padding |
| Chars.ReplaceAppend | CsvWriter.cs:198-213 | `String.Replace` works character by character: replacing in a concatenation concatenates the replaced parts |
| Chars.ToUpper | CsvDataReader.cs:346-347 | upper-casing keeps the length and turns each ASCII lower-case letter into its capital, leaving every other character alone |
| Chars.UpperName | CsvDataReader.cs:745-767 | the same upper-casing for the type names looked up in the column tables |
| Config.EscapeChar | CsvReader.cs:379-383 | the escape character inside qualifiers is the qualifier under doubled escaping and the backslash under backslash escaping |
| Config.RecordEnd | CsvWriter.cs:114-127 | a record ends with the custom record delimiter when one is set, otherwise with the newline, whose last character is LF |
| Escapes.FeedDigit | CsvReader.cs:413-460 | one payload digit completes the escape exactly when it is the radix's last (4 for `\u`, 3 octal or decimal, 2 hex); the value becomes accumulator times base plus digit, modulo 65536 |
| Escapes.HexToDec | CsvReader.cs:332-335 | the value of a hex digit, computed in 16-bit `char` arithmetic; `EscapeReading.HexDigitValues` states that `0`-`9`, `a`-`f` and `A`-`F` give 0 to 15 |
| Escapes.Introduce | CsvReader.cs:482-576 | what the character after a backslash means: a control character, the start of a payload, or itself; `EscapeReading.EscapeClassification` states the full table |
| EscapeReading.EscapeClassification | CsvReader.cs:482-576 | after a backslash, `a b e f n r t v` give control characters, `x d o` (either case) start a hex, decimal or octal payload, `u`/`U` start one in the previous radix, `0`-`7` start an octal payload already holding that digit, and any other character stands for itself; the escape is literal exactly when no payload starts |
| EscapeReading.HexDigitValues | CsvReader.cs:332-335 | `HexToDec` maps `0`-`9`, `a`-`f` and `A`-`F` to 0 to 15 |
| EscapeReading.ValidValueBound | CsvReader.cs:413-454 | with digits valid in the radix, the accumulated value stays below (accumulator + 1) times base to the number of digits |
| EscapeReading.ValidPayloadExact | CsvReader.cs:413-454 | a full payload of valid digits never wraps: the character added is the payload's numeric value |
| EscapeReading.QuotedBackslashStep | CsvReader.cs:583-586 | inside qualifiers under backslash escaping, a backslash adds nothing and marks the next character as escaped |
| EscapeReading.QuotedEscapedStep | CsvReader.cs:478-581 | an escaped character inside qualifiers either appends its decoded character or starts a payload, as the escape table says |
| EscapeReading.QuotedPayloadStep | CsvReader.cs:413-460 | a payload digit inside qualifiers either completes the escape and appends its character, or waits for the next digit |
| EscapeReading.QuotedPayloadRead | CsvReader.cs:413-460 | the remaining digits of a payload inside qualifiers append exactly one character, the digits' value modulo 65536, and the column goes on |
| EscapeReading.QuotedLiteralEscape | CsvReader.cs:478-581 | backslash plus a non-payload character inside qualifiers appends the one decoded character (`\\` a backslash, `\n` LF, and so on) |
| EscapeReading.QuotedNumericEscape | CsvReader.cs:413-576 | backslash, payload letter and a full payload inside qualifiers append the one character the digits denote, modulo 65536 |
| EscapeReading.TruncatedPayloadDropped | CsvReader.cs:863-867 | a payload cut short by the end of the input adds nothing and raises no error: the record ends with the column as it was before the escape |
| EscapeReading.BareBackslashStep | CsvReader.cs:665-675 | in an unqualified column with qualifiers off and backslash escaping, a backslash adds nothing and marks the next character as escaped |
| EscapeReading.BareEscapedLiteralStep | CsvReader.cs:728-832 | an escaped non-payload character in an unqualified column appends its decoded character |
| EscapeReading.BareEscapedStartStep | CsvReader.cs:750-827 | an escaped payload letter in an unqualified column starts a payload in that letter's radix |
| EscapeReading.BarePayloadStep | CsvReader.cs:680-727 | a payload digit in an unqualified column either completes the escape and appends its character, or waits for the next digit |
| EscapeReading.BarePayloadRead | CsvReader.cs:680-727 | the remaining digits of a payload in an unqualified column append exactly one character, their value modulo 65536 |
| EscapeReading.BareLiteralEscape | CsvReader.cs:665-832 | backslash plus a non-payload character in an unqualified column appends the one decoded character |
| EscapeReading.BareNumericEscape | CsvReader.cs:665-827 | backslash, payload letter and a full payload in an unqualified column append the one character the digits denote |
| EscapeReading.UnicodeEscapeReusesRadix | CsvReader.cs:499-521 | `\u` does not select the Unicode radix: after a `\x` in the same column it starts another two-digit hex payload, and in a fresh column a four-digit one |
| Tokenizer.TrimColumnEnd | CsvReader.cs:253-270 | trailing trimming keeps a prefix, removes only spaces and tabs, never removes the first character, and leaves a result of two or more characters not ending in a space or tab |
| Tokenizer.Step | CsvReader.cs:369-858 | one character read by the loop: it dispatches on whether a column is open and how it was opened; `TokenizerFacts.StepSane` states the invariant every step keeps, and the `Scanning` and `ReadingRules` lemmas state what each character does |
| Tokenizer.BetweenStep | CsvReader.cs:614-664 | the first character of a column: a qualifier opens a qualified column (lines 373-377), a delimiter ends an empty column, a terminator ends the record unless it is an empty line being skipped, the comment character drops the line, a blank is skipped when trimming, and anything else opens an unqualified column; stated by `TokenizerFacts.BetweenSane`, `Scanning.OpenQuote`, `Scanning.OpenBare`, `ReadingRules.BlankLinesSkipped`, `ReadingRules.EmptyRecordsKept`, `ReadingRules.CommentLineSkipped` and `ReadingRules.LeadingBlanksSkipped` |
| Tokenizer.UnquotedStep | CsvReader.cs:665-858 | a character in an unqualified column: a separator ends the column (and a terminator the record), a backslash escape or payload digit is decoded, and anything else is appended; stated by `TokenizerFacts.UnquotedSane`, `Scanning.CloseBare`, `Scanning.BareBodyRead` and the `EscapeReading.Bare*` lemmas |
| Tokenizer.QuotedStep | CsvReader.cs:392-612 | a character in a qualified column: the escape character, a closing qualifier, junk after it, a payload digit or an ordinary character; stated by `TokenizerFacts.QuotedSane`, `Scanning.QuotedCharRead`, `Scanning.CloseQuote`, `ReadingRules.JunkStarts`, `ReadingRules.JunkEnds` and the `EscapeReading.Quoted*` lemmas |
| Tokenizer.AddLetter | CsvReader.cs:141-160 | a character is stored in the column buffer unless the record is being skipped, and with the safety switch on a buffer already at 100,000 fails the read; stated by `TokenizerFacts.AddLetterSane` and `ReadingRules.FullColumnStep` |
| Tokenizer.EndColumn | CsvReader.cs:235-279 | ending a column stores its text (trimmed at the end when unqualified and trimming) with its qualified flag, unless skipping, and with the safety switch on a record already at 100,000 columns fails; stated by `TokenizerFacts.EndColumnSane`, `ReadingRules.CloseTrimmed` and `ReadingRules.ColumnLimitStep` |
| Tokenizer.EndColumnAndRecord | CsvReader.cs:235-311 | a terminator stores the column and ends the record, unless storing the column failed; stated by `TokenizerFacts.EndColumnAndRecordSane` and `Scanning.FieldRead` |
| Tokenizer.Flush | CsvReader.cs:863-867 | at the end of the input, an open column or a last character that was a delimiter becomes a final column and ends the record; stated by `ReadingRules.TrailingDelimiterFlushed`, `ReadingRules.UnterminatedColumnFlushed` and `EscapeReading.TruncatedPayloadDropped` |
| Tokenizer.ReadOne | CsvReader.cs:360-870 | one record read from the unread input: the read loop, then the end-of-input flush; `TokenizerFacts.ReadOneOutcome` states its three outcomes and `Scanning.RecordRead` that it inverts the record encoding |
| TokenizerFacts.AddLetterSane | CsvReader.cs:141-160 | storing a character keeps the tokenizer's invariant, including the safety bound on the column buffer |
| TokenizerFacts.EndColumnSane | CsvReader.cs:235-279 | ending a column at a delimiter keeps the invariant, including the safety bound on the column count |
| TokenizerFacts.EndColumnAndRecordSane | CsvReader.cs:235-311 | ending a column and the record at a terminator keeps the invariant: an ended record holds at least one column |
| TokenizerFacts.BetweenSane | CsvReader.cs:614-664 | every first character of a column keeps the invariant |
| TokenizerFacts.UnquotedSane | CsvReader.cs:665-858 | every character of an unqualified column keeps the invariant |
| TokenizerFacts.QuotedSane | CsvReader.cs:392-612 | every character of a qualified column keeps the invariant |
| Tokenizer.Run | CsvReader.cs:367-862 | the read loop never leaves more than it was given: all input is consumed while the record is still open, a finished or failed record consumes nothing more, and an open record consumes at least one character |
| TokenizerFacts.RunLeavesSuffix | CsvReader.cs:367-862 | what the read loop leaves unread is a suffix of its input |
| TokenizerFacts.StepSane | CsvReader.cs:369-858 | every character keeps the tokenizer's invariant: an ended record has a column and did not end on a delimiter, a skipped record stores nothing, a comment is only seen before the first column, and the safety switch bounds both buffers |
| TokenizerFacts.RunSane | CsvReader.cs:360-870 | the invariant holds after any input |
| TokenizerFacts.RunAppend | CsvReader.cs:367-862 | reading `a + b` is reading `a` and then, if the record is still open, `b`, so where the input is cut into chunks does not matter |
| TokenizerFacts.ReadOneOutcome | CsvReader.cs:860-869 | one read ends with a record of at least one column, or with no column and all input consumed, or with a safety failure |
| Scanning.QuotedCharRead | CsvReader.cs:462-607 | the escaped form of one character inside qualifiers (doubled qualifier, backslash pair, or the character itself) appends exactly that character |
| Scanning.QuotedBodyRead | CsvReader.cs:462-607 | the escaped body of a qualified column appends exactly the column's text and leaves the column open |
| Scanning.BareBodyRead | CsvReader.cs:833-846 | characters that break no column are appended to an unqualified column one by one |
| Scanning.OpenQuote | CsvReader.cs:373-377 | a qualifier at the start of a column opens a qualified column |
| Scanning.CloseQuote | CsvReader.cs:587-602 | a lone qualifier followed by a delimiter or terminator closes a qualified column and stores it with its text untrimmed |
| Scanning.OpenBare | CsvReader.cs:653-664 | any other character at the start of a column opens an unqualified column holding that character |
| Scanning.CloseBare | CsvReader.cs:833-842 | a delimiter or terminator ends an unqualified column and stores it |
| Scanning.FieldRead | CsvReader.cs:373-621 | one encoded column followed by a delimiter or a terminator is stored as that column, and a terminator ends the record |
| Scanning.QuotedFieldRead | CsvReader.cs:373-613 | a qualified column reads back as its text, with the qualified flag set |
| Scanning.BareFieldRead | CsvReader.cs:653-858 | an unqualified column reads back as its text, with the qualified flag clear |
| Scanning.FieldsRead | CsvReader.cs:360-870 | the columns of a record, joined by delimiters and ended by a terminator, read back as exactly those columns |
| Scanning.RecordRead | CsvReader.cs:360-870 | `ReadRecord` on an encoded record returns exactly its columns and leaves the input after the terminator |
| ReadingRules.BlankLinesSkipped | CsvReader.cs:632-641 | when empty records are skipped, any run of CR and LF produces no record and leaves the tokenizer where it started |
| ReadingRules.EmptyRecordsKept | CsvReader.cs:632-641 | when empty records are kept, a CR or an LF not after a CR is a record of one empty column, and the LF of a CR LF is not |
| ReadingRules.CommentLineSkipped | CsvReader.cs:642-647 | with comments on, a line starting with the comment character is discarded up to and including its CR or LF, and no record comes of it |
| ReadingRules.LeadingBlanksSkipped | CsvReader.cs:648-652 | with trimming on, spaces and tabs before a column are skipped |
| ReadingRules.TrailingBlanksTrimmed | CsvReader.cs:253-270 | trailing spaces and tabs after a column's last other character are removed |
| ReadingRules.CloseTrimmed | CsvReader.cs:253-276 | ending an unqualified column stores its trimmed text |
| ReadingRules.PaddedColumnRead | CsvReader.cs:648-858 | with trimming on, a column padded with spaces and tabs on both sides reads as the unpadded text |
| ReadingRules.TrailingDelimiterFlushed | CsvReader.cs:863-867 | a delimiter just before the end of the input adds a final empty column (`a,` reads as `a` and the empty string), and that column keeps the previous column's qualified flag |
| ReadingRules.UnterminatedColumnFlushed | CsvReader.cs:863-867 | a last line without a terminator is still a record |
| ReadingRules.FullColumnStep | CsvReader.cs:141-150 | with the safety switch on, a character for a column already holding 100,000 fails with "column too long" |
| ReadingRules.OverlongColumnFails | CsvReader.cs:141-150 | with the safety switch on, a column of more than 100,000 characters fails the read |
| ReadingRules.ColumnLimitStep | CsvReader.cs:240-244 | with the safety switch on, ending a column after 100,000 columns fails with "too many columns" |
| ReadingRules.JunkStarts | CsvReader.cs:587-602 | under doubled escaping, a closing qualifier followed by anything other than a qualifier, delimiter or terminator keeps the column's text and starts dropping characters |
| ReadingRules.JunkEnds | CsvReader.cs:395-408 | the delimiter or terminator after dropped characters stores the column with the text read before the closing qualifier, still marked qualified |
| ReadingRules.JunkDiscarded | CsvReader.cs:395-408 | under doubled escaping, characters after a closing qualifier up to the next delimiter or terminator are discarded, and the column keeps its text and its qualified flag |
| ReadingRules.NewlineInsideCustomRecord | CsvReader.cs:622-631 | with a custom record delimiter, CR and LF are ordinary characters: `a` LF `b;` is one column holding the line break |
| ReadingRules.SkipRecordRunsOn | CsvReader.cs:964-975 | `SkipRecord` over `a,` LF `b` LF consumes both lines, because a skipped record stores no columns |
| Reader.NewReader | CsvReader.cs:24-72 | a new reader expects data, holds no record and no headers, has counted no record and is open |
| Reader.Close | CsvReader.cs:208-232 | closing marks the reader disposed and releases the headers |
| Reader.ReadRecord | CsvReader.cs:360-870 | on a closed reader it throws ObjectDisposed; with no more data it returns false with no columns; the headers and the header index are never changed |
| Reader.ReadHeaders | CsvReader.cs:351-358 | reading headers leaves no current record and does not advance the record counter |
| Reader.SkipRecord | CsvReader.cs:964-975 | on a closed reader it throws; with no more data it returns false and changes nothing |
| Reader.LineLength | CsvReader.cs:934-962 | the line `SkipLine` consumes runs up to and including the first CR or LF, and is never empty when input remains |
| Reader.SkipLine | CsvReader.cs:934-962 | `SkipLine` returns whether it read a character, clears the record, and leaves the counter and the headers alone |
| Reader.ColumnAt | CsvReader.cs:1042-1059 | the integer indexer gives the column's text, or the empty string outside the record |
| Reader.GetIndex | CsvReader.cs:319-324 | a header name gives its column, an unknown name -1, and a null name throws |
| Reader.ColumnNamed | CsvReader.cs:1033-1040 | the string indexer gives the empty string for an unknown header |
| Reader.GetLength | CsvReader.cs:326-330 | the length of the column's text, or 0 outside the record |
| Reader.IsQualified | CsvReader.cs:337-341 | true exactly for a column of the record that was enclosed in qualifiers |
| Reader.GetHeader | CsvReader.cs:313-317 | the header of the column, or the empty string outside the headers |
| Reader.Values | CsvReader.cs:1085-1100 | one text per column, each what the integer indexer returns |
| Reader.GetHeaders | CsvReader.cs:1014-1020 | the headers the reader holds, or ObjectDisposed |
| Reader.SetHeaders | CsvReader.cs:1021-1031 | setting the headers replaces them, keeps the record, and keeps the header count in step; on a closed reader the released index throws |
| Reader.CurrentRecord | CsvReader.cs:1006 | the record counter minus one in unsigned 64-bit arithmetic, so it is the largest such number before the first record |
| Reader.ReadAs | CsvReader.cs:360-870 | `ReadRecord` under the header-reading or record-skipping flag; `ReaderFacts.ReadEnded` states that an ended read stores the record and the unread rest |
| Reader.Capture | CsvReader.cs:281-311 | what `EndRecord` does with a finished record: count it, or store it as the headers with their index, or drop it when skipping; stated by `ReaderFacts.ReadHeadersCaptures`, `ReaderFacts.ReadRecordOutcome` and `ReaderFacts.SkipRecordStoresNothing` |
| Reader.IndexNames | CsvReader.cs:289-296 | the header index after capturing names; `ReaderFacts.IndexNamesLastWins` states that each name goes to the last column carrying it |
| ReaderFacts.RunNeverFails | CsvReader.cs:141-252 | with the safety switch off no read ever fails |
| ReaderFacts.RunNeverFailsSkipping | CsvReader.cs:141-252 | a skipped record never fails, since nothing is stored |
| ReaderFacts.ReadOneErrors | CsvReader.cs:141-252 | the only failures of a read are "column too long" and "too many columns", and only with the safety switch on |
| ReaderFacts.ReadFailureCloses | CsvReader.cs:145-149 | a failed read closes the reader |
| ReaderFacts.ClosedRejectsEverything | CsvReader.cs:192-198 | after `Close`, every member the lemma lists throws ObjectDisposed: `ReadRecord`, `ReadHeaders`, `SkipRecord`, `SkipLine`, both indexers, `GetIndex`, `GetLength`, `IsQualified`, `GetHeader`, `Values` and the `Headers` getter; the `Headers` setter throws NullReference; `ReadRecord`, `SkipRecord` and `SkipLine` leave the reader as it was. `CurrentRecord` has no disposed check and stays readable after `Close` |
| ReaderFacts.ReadRecordOutcome | CsvReader.cs:863-869 | `ReadRecord` returns false only when it produced no record and no data is left; true means a record of at least one column and one more counted record, modulo 2 to the 64 |
| ReaderFacts.SkipRecordStoresNothing | CsvReader.cs:964-975 | `SkipRecord` never fails, stores no columns, counts no record and leaves the headers alone |
| ReaderFacts.IndexNamesLastWins | CsvReader.cs:289-296 | capturing headers sends each name to the last column carrying it; other names keep their earlier entries |
| ReaderFacts.ReadHeadersCaptures | CsvReader.cs:281-305 | `ReadHeaders` stores the record's texts as the headers, with the header count and index, without counting a record |
| ReaderFacts.CoherentKept | CsvReader.cs:281-305 | every call keeps the header count equal to the number of headers |
| ReaderFacts.SetHeadersThenLookUp | CsvReader.cs:1021-1031 | after setting headers, `GetHeader` returns each one, and `GetIndex` finds a column carrying that name |
| ReaderFacts.SkipLineConsumesLine | CsvReader.cs:934-962 | `SkipLine` drops exactly the characters up to and including the first CR or LF |
| ReaderFacts.ReadEnded | CsvReader.cs:360-870 | a read that ends a record stores its columns and the unread rest, and counts the record as its role asks |
| ReaderFacts.ReadRecordEnded | CsvReader.cs:360-870 | `ReadRecord` on input whose next record ends returns true, holds that record's columns and the unread rest, and counts one more record |
| Buffers.NextCapacity | CsvReader.cs:150-153 | a full buffer of n slots grows to n + max(1, n/2): strictly larger and about half again as large |
| Buffers.Grow | CsvReader.cs:150-157 | the grown array has the next capacity and begins with the old contents |
| Buffers.Collect | CsvReader.cs:141-160 | appending to a growing buffer keeps exactly the appended items, and the buffer grows only when they overflow the initial capacity |
| Writer.Write | CsvWriter.cs:153-257 | one column as `Write` sends it: the delimiter unless it is the first of its record, then the column's text. `RoundTrip.WriteIsEncoding` states that this text is the encoding of the cleaned content that the reader takes back as one column. `WriterFacts.QuotedExactlyWhen` states when it is enclosed, and `WriterFacts.NullIsEmpty`, `WriterFacts.EmptyColumnBare` and `WriterFacts.EmptyFirstColumnQuoted` state the empty cases |
| Writer.NewWriter | CsvWriter.cs:14-37 | a new writer is at the start of a record, has written nothing and is open |
| Writer.WriteColumn | CsvWriter.cs:153-257 | on an open writer, `Write` appends the column text and clears `firstColumn`; on a closed one it throws ObjectDisposed |
| Writer.EndRecord | CsvWriter.cs:114-127 | ending a record writes the record end and returns to the first column |
| Writer.WriteComment | CsvWriter.cs:286-301 | a comment is the comment character, the text and the record end, and the next column is a first column |
| Writer.WriteColumns | CsvWriter.cs:308-315 | writing columns one by one appends their joined text and leaves `firstColumn` set only when there were none |
| Writer.WriteRecord | CsvWriter.cs:308-318 | a null or empty array writes nothing, even on a closed writer; otherwise the record is written and ended |
| Writer.Close | CsvWriter.cs:92-112 | closing marks the writer disposed and keeps what was written |
| Writer.Quotes | CsvWriter.cs:166-194 | whether a column is enclosed in qualifiers; `WriterFacts.QuotedExactlyWhen` states the rule as an independent if-and-only-if and `WriterFacts.NoQualifiersUnlessForced` the case without qualifiers |
| Writer.EscapeQuoted | CsvWriter.cs:195-214 | the escaping inside qualifiers: doubled qualifiers, or escaped backslashes and qualifiers; `WriterFacts.UndoubleDoubled` and `WriterFacts.BackslashEscapedOnce` state its inverses and `RoundTrip.EscapeQuotedIsQuotedBody` that the reader undoes it |
| Writer.EscapeBare | CsvWriter.cs:215-250 | the escaping outside qualifiers, including the backslash and newline rewrite; stated by `RoundTrip.BareUnchanged`, `WriterFacts.BareNewlinesNotEscaped` and `WriterFacts.BareBackslashNewlineRewritten` |
| Writer.Cleaned | CsvWriter.cs:158-170 | null content is the empty string, and unless spaces are preserved the text is trimmed of spaces and tabs; stated by `WriterFacts.NullIsEmpty` and `WriterFacts.CleanedUnpadded` |
| Writer.Column | CsvWriter.cs:158-250 | the text of one column without its delimiter: enclosed and escaped when `Quotes` says so, escaped for bare use otherwise; `RoundTrip.ColumnIsEncoding` states that it is the column's encoding |
| Writer.Columns | CsvWriter.cs:308-315 | the text of successive `Write` calls; `WriterFacts.ColumnsJoined` states that it is the column texts joined by one delimiter each |
| WriterFacts.QuotedExactlyWhen | CsvWriter.cs:166-194 | a column is enclosed exactly when the qualifier is forced, or qualifiers are in use and the column holds a terminator, the qualifier or the delimiter, is a first column that is empty or begins with the comment character, or is padded with spaces preserved |
| WriterFacts.NoQualifiersUnlessForced | CsvWriter.cs:166-194 | without qualifiers in use, only `ForceQualifier` encloses a column |
| WriterFacts.NullIsEmpty | CsvWriter.cs:158-161 | null content is written exactly like the empty string |
| WriterFacts.EmptyColumnBare | CsvWriter.cs:162-194 | an empty column that is not first is written as the delimiter alone |
| WriterFacts.EmptyFirstColumnQuoted | CsvWriter.cs:171-174 | when qualifiers are in use, an empty first column is written as two qualifiers |
| WriterFacts.CleanedUnpadded | CsvWriter.cs:167-170 | unless spaces are preserved, the column text has no space or tab at either end |
| WriterFacts.UndoubleDoubled | CsvWriter.cs:210-213 | doubling the qualifiers can be undone: reading pairs back as single qualifiers gives the content |
| WriterFacts.DoubledColumn | CsvWriter.cs:195-214 | under doubled escaping, a quoted column is the qualifier, the content with every qualifier doubled, and the qualifier |
| WriterFacts.BackslashEscapedOnce | CsvWriter.cs:198-209 | doubling backslashes first and then prefixing qualifiers escapes every character at most once: undoing the escapes gives the content |
| WriterFacts.BackslashColumn | CsvWriter.cs:195-214 | under backslash escaping, a quoted column is the qualifier, the content with each backslash and each qualifier escaped once, and the qualifier |
| WriterFacts.BareNewlinesNotEscaped | CsvWriter.cs:233-245 | outside qualifiers with no custom record delimiter, CR and LF in a column without backslashes are written as they are |
| WriterFacts.BareBackslashNewlineRewritten | CsvWriter.cs:235-244 | outside qualifiers with no custom record delimiter, a backslash followed by LF is written as backslash, LF, backslash, LF, LF |
| WriterFacts.CommentLine | CsvWriter.cs:286-301 | a comment line is the comment character, the text and the record end, and the next column is a first column |
| WriterFacts.WriteRecordText | CsvWriter.cs:308-318 | `WriteRecord` writes the columns joined by delimiters, then the record end |
| WriterFacts.ColumnsJoined | CsvWriter.cs:162-165 | the columns' texts are joined by exactly one delimiter each |
| RoundTrip.EscapeQuotedIsQuotedBody | CsvWriter.cs:195-214 | the writer's escaping inside qualifiers is exactly the escaping the reader undoes |
| RoundTrip.BareUnchanged | CsvWriter.cs:215-250 | a column with nothing to escape is written outside qualifiers as it is |
| RoundTrip.ColumnEncodes | CsvWriter.cs:158-250 | with qualifiers in use and an unambiguous dialect, one column's text is the reader's encoding of its cleaned content, qualified exactly when `Quotes` says so, provided that under backslash escaping no backslash is written outside qualifiers |
| RoundTrip.WriteIsEncoding | CsvWriter.cs:153-257 | `Write` sends the delimiter unless the column is first, then the encoding of the cleaned content, under the same conditions |
| RoundTrip.ColumnIsEncoding | CsvWriter.cs:153-257 | each column of a record is written as the encoding of its cell |
| RoundTrip.RecordIsEncoding | CsvWriter.cs:153-257 | the text of a written record is the encoding of its columns, each qualified exactly when `Write` enclosed it |
| RoundTrip.CellsReadable | CsvWriter.cs:166-194 | every column the writer leaves unqualified can be read back unchanged: the quoting rule encloses whatever the reader would split, skip, trim or take as a comment |
| RoundTrip.WrittenText | CsvWriter.cs:308-318 | `WriteRecord` adds the encoded record followed by the record end |
| RoundTrip.RecordRoundTrip | CsvWriter.cs:153-257 | a written record read back by `ReadRecord` gives every column's cleaned text with the qualified flag it was written with, and leaves only the rest of the record end unread |
| RoundTrip.ReaderRoundTrip | CsvReader.cs:360-870 | on the reader itself: `ReadRecord` returns true, counts one record, and the indexer and `IsQualified` give back every written column |
| DataReader.NewColumn | CsvDataReader.cs:596-620 | a declared type is accepted exactly when its upper-cased name is in the tables; a null type throws ArgumentNull and an unknown one is rejected |
| DataReader.SetFormat | CsvDataReader.cs:772-788 | a non-empty format is accepted exactly for DateTime columns, otherwise NotSupported; a null or empty one clears the format |
| DataReader.BoolToken | CsvDataReader.cs:346-364 | the boolean switch: true exactly for TRUE, T, YES, Y, 1 and -1, false exactly for FALSE, F, NO, N and 0 |
| DataReader.Convert | CsvDataReader.cs:324-413 | only a string column yields its text unchanged, and only a boolean column a table token, looked up on the trimmed, upper-cased text |
| DataReader.CheckInit | CsvDataReader.cs:107-142 | without a declared column it throws InvalidOperation; once it succeeds the reader is initialized, with one value slot per column; the names are the columns' own names over the header row `ReadHeaders` captured when `HasHeaders` is set and a row was there (no header row otherwise), and the name index is built from them; without headers the wrapped reader is untouched |
| DataReader.CheckColumnIndex | CsvDataReader.cs:91-97 | an index passes exactly when it is a declared column, and otherwise throws IndexOutOfRange |
| DataReader.GetName | CsvDataReader.cs:303-309 | the call initializes as `CheckInit` does; it returns the name `CheckInit` resolved for the column; an index outside the declared columns, or a column added after `CheckInit` and so without a name slot, throws IndexOutOfRange |
| DataReader.Fill | CsvDataReader.cs:209-212 | the values `Read` copies are the reader's column texts, and the empty string past the record's end |
| DataReader.Close | CsvDataReader.cs:144-164 | closing the data reader closes the reader it wraps |
| DataReader.GetOrdinal | CsvDataReader.cs:311-317 | the call initializes as `CheckInit` does and fails when it fails; a null name throws ArgumentNull; `DataReaderFacts.OrdinalOfNamedColumn` states the column it returns |
| DataReader.IsDbNull | CsvDataReader.cs:425-451 | an index outside the declared columns throws IndexOutOfRange and values not yet read throw NullReference; `DataReaderFacts.NullClassification` and `DataReaderFacts.NullIffDefault` state the classification |
| DataReader.GetValue | CsvDataReader.cs:324-413 | the same index and null-values errors as `IsDBNull`; `DataReaderFacts.BooleanColumn`, `DataReaderFacts.QualifiedEmptyIsString` and `DataReaderFacts.DbNullIffDefaultValue` state the conversion |
| DataReader.Read | CsvDataReader.cs:171-217 | a failed initialization is passed on and nothing is read; `DataReaderFacts.ReadLoopOutcome` and `DataReaderFacts.ReadWithoutHandler` state the read loop |
| DataReader.ReadLoop | CsvDataReader.cs:198-217 | records are read until the handler keeps one or the input runs out; stated by `DataReaderFacts.ReadLoopOutcome` |
| DataReader.ResolveNames | CsvDataReader.cs:117-134 | one name slot per declared column; `DataReaderFacts.NamesResolved` states which name fills each slot |
| DataReader.IndexResolved | CsvDataReader.cs:124-139 | every name in the index leads to a column carrying that name, and every named column's name is in the index; `DataReaderFacts.IndexResolvedLastWins` adds that the last such column wins |
| DataReaderFacts.TablesShareKeys | CsvDataReader.cs:622-743 | the DbType, type and name tables know exactly the same type names, and a name is known exactly when it is in them |
| DataReaderFacts.TypeNamesCaseInsensitive | CsvDataReader.cs:745-767 | two spellings of a type name that differ only in letter case declare the same column |
| DataReaderFacts.SomeDeclarations | CsvDataReader.cs:596-614 | "int" declares an integer column, and "varchar2" is rejected |
| DataReaderFacts.NullIffDefault | CsvDataReader.cs:425-451 | `IsDBNull`'s rule says DBNull exactly when `GetValue`'s rule returns the column's default |
| DataReaderFacts.DbNullIffDefaultValue | CsvDataReader.cs:324-451 | on a data reader holding a record, `IsDBNull` is true for a column exactly when `GetValue` returns its default |
| DataReaderFacts.NullClassification | CsvDataReader.cs:425-451 | null is DBNull; other types are trimmed first and empty is DBNull; an empty string column is DBNull unless qualified; non-empty text never is |
| DataReaderFacts.QualifiedEmptyIsString | CsvDataReader.cs:332-337 | a qualified empty string column reads as the empty string, an unqualified one as the default |
| DataReaderFacts.BoolTokensWellFormed | CsvDataReader.cs:346-364 | no token is both true and false, and every token is its own upper case |
| DataReaderFacts.BooleanColumn | CsvDataReader.cs:346-404 | a non-blank boolean column is true exactly for a true token and false exactly for a false token, after trimming and upper-casing; other text goes to `Boolean.Parse` |
| DataReaderFacts.BooleanCaseInsensitive | CsvDataReader.cs:346-364 | a token is recognised whatever the case of its letters |
| DataReaderFacts.SomeBooleanSpellings | CsvDataReader.cs:346-364 | "yes", "Yes" and "-1" spell true; "no" and "f" spell false |
| DataReaderFacts.IndexResolvedLastWins | CsvDataReader.cs:124-139 | the name index sends each name to the last column carrying it, and knows no other name |
| DataReaderFacts.NamesResolved | CsvDataReader.cs:117-134 | a column's own name overrides the header at its position; without either the column has no name |
| DataReaderFacts.OrdinalOfNamedColumn | CsvDataReader.cs:311-317 | `GetOrdinal` succeeds exactly when initialization does, and returns the last column whose resolved name (its own `Name`, or the header at its position) is the given one, or -1 when no column has it |
| DataReaderFacts.HeaderNamesResolved | CsvDataReader.cs:117-134 | with `HasHeaders` and a header row in the input, `GetName` gives a column its own `Name` when it has one, otherwise the header `GetHeader` reports at its position, and no name past the header count, so names are taken from the headers only up to the smaller of the column and header counts |
| DataReaderFacts.AddedColumnUnnamed | CsvDataReader.cs:303-309 | a column added after `CheckInit` passes the index check but has no name slot, so `GetName` throws IndexOutOfRange |
| DataReaderFacts.ReadLoopOutcome | CsvDataReader.cs:198-217 | `Read` returns true with the values of a record the handler kept, or false once the input is exhausted |
| DataReaderFacts.ReadWithoutHandler | CsvDataReader.cs:171-181 | without a handler, `Read` is one `ReadRecord` |
| DataReaderFacts.OrdinalsChecked | CsvDataReader.cs:91-97 | `IsDBNull` and `GetValue` reject an index outside the declared columns |

## Left out

- Streams, files, encodings and BOM detection: the file and stream constructors, and the file opening and buffer refill in `CheckDataLength`, are left out. The input is the text still to be read, and the output stream is the text written so far.
- The 1024-character refill chunks are left out, because the tokenizer's state survives a refill.
- `Parse(string)` on both readers is left out: it is the `TextReader` constructor over the string, which is `Reader.NewReader` with the default options.
- Dispose, finalizers, `GC.SuppressFinalize` and `Flush` are not modelled. Only the `disposed` flag is kept.
- `ReadToEnd` and `WriteAll` are left out. They fill and read .NET `DataTable` objects.
- The `IEnumerator`/`IEnumerable` plumbing is left out. `MoveNext` is `ReadRecord`, and `Reset` only throws.
- The .NET parsers behind `GetValue` are left out: the numeric, DateTime and Guid parsers, culture providers and the `Boolean.Parse` fallback. `DataReader.Convert` returns which parser the text is handed to (`Parsed`, `ParsedDate`, `BooleanParse`), not its result.
- The typed getters (`GetInt32` and the rest), `GetValues`, `FieldCount` and the object indexers are left out. They wrap `GetValue` and `GetOrdinal`.
- `DefaultValue` and `FormatProvider` are caller-supplied objects, so `GetValue` returns `Default` for the column's default value.
- `ThrowHelpfulException` is left out. Exception messages are not modelled; an exception is its kind (`Outcomes.CsvError`).
- The `Columns` collection is a plain sequence. `ColumnCollection.Remove` and its indexer are not modelled.
- `Environment.NewLine` is platform-dependent, so it is a parameter: LF or CR LF.
- `String.ToUpper()` is culture-sensitive and is modelled on ASCII letters only. `String.Trim()` is modelled in full, with the white space of `Char.IsWhiteSpace` (`Chars.IsWhiteSpace`).
- The `Headers` setter throws ArgumentNull from the hash table on a null entry. The model's headers are texts, never null, so that case is left out.
- On a closed reader the `Headers` setter assigns the headers before the released index throws. That assignment cannot be observed, because every getter throws ObjectDisposed afterwards, so it is not modelled.
- `Values` returns null on a reader that was never initialized. That only happens with the file constructor, which is left out.
- Buffers.NextCapacity: the 32-bit `int` overflow of the growth computation for buffers near 2^31 slots is not modelled. The safety switch keeps buffers far below that.
- DataReader.Read: the event handler is modelled as a pure function of the record's values that decides whether to skip. A handler that changes the values or the reader is not modelled.
- DataReader.IsDbNull and DataReader.GetValue: their contracts state only the error cases. Their rules are stated by `DataReaderFacts.NullClassification`, `DataReaderFacts.NullIffDefault`, `DataReaderFacts.DbNullIffDefaultValue` and `DataReaderFacts.OrdinalsChecked`.
- The concrete conversions of the three type tables are not all stated entry by entry. `DataReaderFacts.TablesShareKeys` states that their key sets agree, and `DataReaderFacts.SomeDeclarations` checks sample entries.
