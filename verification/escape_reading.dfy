/** Backslash escapes as the tokenizer reads them: inside qualifiers under backslash escaping, and
    outside qualifiers when qualifiers are turned off. */
module EscapeReading {
  import opened Chars
  import opened Outcomes
  import opened Config
  import opened Escapes
  import opened Tokenizer
  import opened TokenizerFacts
  import opened Scanning

  /** A digit the payload of radix `r` accepts as one of its own: below the radix. */
  predicate ValidDigits(r: Radix, digits: Text) {
    forall i :: 0 <= i < |digits| ==> DigitValue(r, digits[i]) as int < Base(r)
  }

  function Pow(b: nat, k: nat): (p: nat)
    ensures b > 0 ==> p > 0
  {
    if k == 0 then 1 else b * Pow(b, k - 1)
  }

  lemma {:induction false} ValidValueBound(r: Radix, acc: nat, digits: Text)
    requires ValidDigits(r, digits)
    ensures 0 <= Value(r, acc, digits) < (acc + 1) * Pow(Base(r), |digits|)
    decreases |digits|
  {
    if |digits| > 0 {
      var d := DigitValue(r, digits[0]) as int;
      assert d < Base(r);
      assert ValidDigits(r, digits[1..]) by {
        forall i | 0 <= i < |digits[1..]| ensures DigitValue(r, digits[1..][i]) as int < Base(r) {
          assert digits[1..][i] == digits[i + 1];
        }
      }
      ValidValueBound(r, acc * Base(r) + d, digits[1..]);
      BoundStep(acc, Base(r), d, Pow(Base(r), |digits| - 1), Value(r, acc, digits));
    }
  }

  /** One more digit below the base multiplies the bound by the base. */
  lemma BoundStep(acc: nat, b: nat, d: nat, p: nat, v: int)
    requires d < b && v < (acc * b + d + 1) * p
    ensures v < (acc + 1) * (b * p)
  {
    assert acc * b + d + 1 <= (acc + 1) * b;
    MulMono(acc * b + d + 1, (acc + 1) * b, p);
    assert (acc + 1) * b * p == (acc + 1) * (b * p);
  }

  lemma MulMono(x: nat, y: nat, p: nat)
    requires x <= y
    ensures x * p <= y * p
  {
  }

  /** A payload of valid digits of full width is never truncated: `\x` `\d` `\o` and `\u`
      followed by valid digits give exactly the number they spell. */
  lemma ValidPayloadExact(r: Radix, digits: Text)
    requires |digits| == Width(r) && ValidDigits(r, digits)
    ensures Wrap(Value(r, 0, digits)) as int == Value(r, 0, digits)
  {
    ValidValueBound(r, 0, digits);
    assert Pow(Base(r), |digits|) <= Modulus by {
      match r
      case Unicode => assert Pow(16, 4) == 65536;
      case Hex => assert Pow(16, 2) == 256;
      case Octal => assert Pow(8, 3) == 512;
      case Decimal => assert Pow(10, 3) == 1000;
    }
  }

  /** The letters a backslash turns into control characters, and the character each stands for. */
  const ControlEscapes: map<CodeUnit, CodeUnit> :=
    map[97 := Alert, 98 := Backspace, 101 := Esc, 102 := FF, 110 := LF, 114 := CR, 116 := Tab, 118 := VT]

  /** The letters that start a numeric escape, with the radix each selects (`u` and `U` keep the
      previous one). */
  function RadixLetter(previous: Radix, c: CodeUnit): Option<Radix> {
    if c == 120 || c == 88 then Some(Hex)
    else if c == 100 || c == 68 then Some(Decimal)
    else if c == 111 || c == 79 then Some(Octal)
    else if c == 117 || c == 85 then Some(previous)
    else None
  }

  /** What the character after a backslash means: one of the eight control letters, a radix
      letter with an empty payload, an octal digit that is the first payload digit, or else the
      character itself, so that the qualifier and the backslash stand for themselves. */
  lemma EscapeClassification(r: Radix, c: CodeUnit)
    ensures c in ControlEscapes ==> Introduce(r, c) == Literal(ControlEscapes[c])
    ensures RadixLetter(r, c).Some? ==> Introduce(r, c) == Escapes.Start(RadixLetter(r, c).value, Numeric(0, 0))
    ensures 48 <= c <= 55 ==> Introduce(r, c) == Escapes.Start(Octal, Numeric(1, c - 48))
    ensures c !in ControlEscapes && RadixLetter(r, c).None? && !(48 <= c <= 55) ==> Introduce(r, c) == Literal(c)
    ensures Introduce(r, c).Literal? <==> RadixLetter(r, c).None? && !(48 <= c <= 55)
  {
  }

  /** The digits `HexToDec` is meant for get their usual values, in either case. */
  lemma HexDigitValues()
    ensures forall i :: 0 <= i < 16 ==> HexToDec(LowerHex[i]) as int == i && HexToDec(UpperHex[i]) as int == i
  {
  }

  const LowerHex: Text := [48, 49, 50, 51, 52, 53, 54, 55, 56, 57, 97, 98, 99, 100, 101, 102]
  const UpperHex: Text := [48, 49, 50, 51, 52, 53, 54, 55, 56, 57, 65, 66, 67, 68, 69, 70]

  /** A qualified column waiting for `Width(r) - n.count` more payload characters. */
  predicate AwaitingPayload(m: Machine, r: Radix, n: Numeric) {
    m.status.Running? && m.phase == Quoted(false, false, false, Some(n), r)
  }

  /** One payload character inside qualifiers. */
  lemma QuotedPayloadStep(o: ReaderOptions, m: Machine, r: Radix, n: Numeric, c: CodeUnit)
    requires AwaitingPayload(m, r, n) && Room(o, m, 1)
    ensures var f := FeedDigit(r, n, c);
      Step(o, false, m, c) ==
        if f.Complete? then m.(last := c, phase := Quoted(false, false, false, None, r), cur := m.cur + [f.value])
        else m.(last := c, phase := Quoted(false, false, false, Some(f.n), r))
  {
  }

  /** The payload characters are consumed whatever they are, qualifiers and delimiters included;
      once complete, the character they spell modulo 2^16 is appended. */
  lemma {:induction false} QuotedPayloadRead(o: ReaderOptions, m: Machine, r: Radix, n: Numeric, digits: Text)
    requires AwaitingPayload(m, r, n) && Room(o, m, 1)
    requires |digits| > 0 && n.count + |digits| == Width(r)
    ensures var (m', rest) := Run(o, false, m, digits);
      rest == [] && m' == m.(cur := m.cur + [Wrap(Value(r, n.acc as int, digits))], phase := Quoted(false, false, false, None, r), last := m'.last)
    decreases |digits|
  {
    FeedAll(r, n, digits);
    QuotedPayloadStep(o, m, r, n, digits[0]);
    var m1 := Step(o, false, m, digits[0]);
    assert Run(o, false, m, digits) == Run(o, false, m1, digits[1..]);
    if |digits| > 1 {
      QuotedPayloadRead(o, m1, r, FeedDigit(r, n, digits[0]).n, digits[1..]);
    }
  }

  /** A backslash inside qualifiers starts an escape. */
  lemma QuotedBackslashStep(o: ReaderOptions, m: Machine)
    requires o.dialect.escapeMode == Backslash && Unambiguous(o.dialect) && InQuotes(m)
    ensures Step(o, false, m, BackslashChar) == m.(last := BackslashChar, phase := Quoted(false, true, false, None, m.phase.radix))
  {
    assert Step(o, false, m, BackslashChar) == QuotedStep(o, false, m, BackslashChar);
  }

  /** A backslash outside qualifiers, with qualifiers off, starts an escape. */
  lemma BareBackslashStep(o: ReaderOptions, m: Machine)
    requires o.dialect.escapeMode == Backslash && !o.dialect.useTextQualifier && InBare(m)
    ensures Step(o, false, m, BackslashChar) == m.(last := BackslashChar, phase := Unquoted(true, None, m.phase.radix))
  {
    assert Step(o, false, m, BackslashChar) == UnquotedStep(o, false, m, BackslashChar);
  }

  /** The character after a backslash inside qualifiers. */
  lemma QuotedEscapedStep(o: ReaderOptions, m: Machine, radix: Radix, c: CodeUnit)
    requires o.dialect.escapeMode == Backslash && c != o.dialect.qualifier
    requires m.status.Running? && m.phase == Quoted(false, true, false, None, radix) && Room(o, m, 1)
    ensures Step(o, false, m, c) ==
      match Introduce(radix, c)
      case Literal(x) => m.(last := c, phase := Quoted(false, false, false, None, radix), cur := m.cur + [x])
      case Start(r, n) => m.(last := c, phase := Quoted(false, false, false, Some(n), r))
  {
    assert Step(o, false, m, c) == QuotedStep(o, false, m, c);
  }

  /** The character after a backslash outside qualifiers, with qualifiers off, when the escape
      table gives a character for it (a second backslash gives a backslash). */
  lemma BareEscapedLiteralStep(o: ReaderOptions, m: Machine, radix: Radix, c: CodeUnit)
    requires o.dialect.escapeMode == Backslash && !o.dialect.useTextQualifier
    requires m.status.Running? && m.phase == Unquoted(true, None, radix) && Room(o, m, 1)
    requires Introduce(radix, c).Literal?
    ensures Step(o, false, m, c) == m.(last := c, phase := Unquoted(false, None, radix), cur := m.cur + [Introduce(radix, c).c])
  {
    assert Step(o, false, m, c) == UnquotedStep(o, false, m, c);
  }

  /** The character after a backslash outside qualifiers that starts a numeric escape. */
  lemma BareEscapedStartStep(o: ReaderOptions, m: Machine, radix: Radix, c: CodeUnit)
    requires o.dialect.escapeMode == Backslash && !o.dialect.useTextQualifier
    requires m.status.Running? && m.phase == Unquoted(true, None, radix)
    requires Introduce(radix, c).Start? && c != BackslashChar
    ensures var s := Introduce(radix, c);
      Step(o, false, m, c) == m.(last := c, phase := Unquoted(false, Some(s.n), s.radix))
  {
    assert Step(o, false, m, c) == UnquotedStep(o, false, m, c);
  }

  /** A backslash followed by a character of the escape table, or any other character, inside
      qualifiers: the character the table gives is appended. */
  lemma QuotedLiteralEscape(o: ReaderOptions, m: Machine, c: CodeUnit)
    requires o.dialect.escapeMode == Backslash && Unambiguous(o.dialect)
    requires InQuotes(m) && Room(o, m, 1) && c != o.dialect.qualifier
    requires Introduce(m.phase.radix, c).Literal?
    ensures var (m', rest) := Run(o, false, m, [BackslashChar, c]);
      rest == [] && m' == m.(cur := m.cur + [Introduce(m.phase.radix, c).c], last := c)
  {
    var Quoted(_, _, _, _, radix) := m.phase;
    var m1 := m.(last := BackslashChar, phase := Quoted(false, true, false, None, radix));
    QuotedBackslashStep(o, m);
    QuotedEscapedStep(o, m1, radix, c);
    RunCons(o, false, m, BackslashChar, [c]);
    RunCons(o, false, m1, c, []);
    assert [BackslashChar, c] == [BackslashChar] + [c];
  }

  /** A backslash, the character that starts a numeric escape, and a full payload, inside
      qualifiers: the one character the payload spells modulo 2^16 is appended, and the column
      remembers the radix (which a later `\u` reuses). */
  lemma QuotedNumericEscape(o: ReaderOptions, m: Machine, intro: CodeUnit, digits: Text)
    requires o.dialect.escapeMode == Backslash && Unambiguous(o.dialect)
    requires InQuotes(m) && Room(o, m, 1) && intro != o.dialect.qualifier
    requires Introduce(m.phase.radix, intro).Start?
    requires var s := Introduce(m.phase.radix, intro); |digits| > 0 && s.n.count + |digits| == Width(s.radix)
    ensures var s := Introduce(m.phase.radix, intro);
      var (m', rest) := Run(o, false, m, [BackslashChar, intro] + digits);
      rest == [] && m' == m.(cur := m.cur + [Wrap(Value(s.radix, s.n.acc as int, digits))],
                             phase := Quoted(false, false, false, None, s.radix), last := m'.last)
  {
    var Quoted(_, _, _, _, radix) := m.phase;
    var s := Introduce(radix, intro);
    var m1 := m.(last := BackslashChar, phase := Quoted(false, true, false, None, radix));
    QuotedBackslashStep(o, m);
    var m2 := m.(last := intro, phase := Quoted(false, false, false, Some(s.n), s.radix));
    QuotedEscapedStep(o, m1, radix, intro);
    RunCons(o, false, m, BackslashChar, [intro] + digits);
    RunCons(o, false, m1, intro, digits);
    assert [BackslashChar, intro] + digits == [BackslashChar] + ([intro] + digits);
    QuotedPayloadRead(o, m2, s.radix, s.n, digits);
  }

  /** A numeric escape cut short by the end of the input adds nothing and raises no error: the
      column ends with the text it had before the backslash. */
  lemma {:induction false} TruncatedPayloadDropped(o: ReaderOptions, m: Machine, r: Radix, n: Numeric, digits: Text)
    requires AwaitingPayload(m, r, n) && m.started && n.count + |digits| < Width(r)
    requires !o.safetySwitch || |m.fields| < SafetyLimit
    ensures var m' := Flush(o, false, Run(o, false, m, digits).0);
      m'.status == Ended && m'.fields == m.fields + [Field(ColumnText(o, m.cur, m.qualified), m.qualified)]
    decreases |digits|
  {
    if |digits| > 0 {
      var n' := FeedDigit(r, n, digits[0]).n;
      var m1 := m.(last := digits[0], phase := Quoted(false, false, false, Some(n'), r));
      assert Step(o, false, m, digits[0]) == m1;
      assert Run(o, false, m, digits) == Run(o, false, m1, digits[1..]);
      TruncatedPayloadDropped(o, m1, r, n', digits[1..]);
    }
  }

  /** Outside qualifiers with qualifiers off: a backslash and the next character append what the
      escape table gives for it; a doubled backslash appends one backslash. */
  lemma BareLiteralEscape(o: ReaderOptions, m: Machine, c: CodeUnit)
    requires o.dialect.escapeMode == Backslash && !o.dialect.useTextQualifier
    requires InBare(m) && Room(o, m, 1)
    requires Introduce(m.phase.radix, c).Literal?
    ensures var (m', rest) := Run(o, false, m, [BackslashChar, c]);
      rest == [] && m' == m.(cur := m.cur + [Introduce(m.phase.radix, c).c], last := c)
  {
    var Unquoted(_, _, radix) := m.phase;
    var m1 := m.(last := BackslashChar, phase := Unquoted(true, None, radix));
    var m2 := m.(cur := m.cur + [Introduce(radix, c).c], last := c);
    assert Run(o, false, m1, [c]) == (m2, []) by {
      BareEscapedLiteralStep(o, m1, radix, c);
      RunCons(o, false, m1, c, []);
    }
    assert Run(o, false, m, [BackslashChar, c]) == Run(o, false, m1, [c]) by {
      BareBackslashStep(o, m);
      RunCons(o, false, m, BackslashChar, [c]);
      assert [BackslashChar, c] == [BackslashChar] + [c];
    }
  }

  /** An unqualified column waiting for payload characters. */
  predicate AwaitingBarePayload(m: Machine, r: Radix, n: Numeric) {
    m.status.Running? && m.phase == Unquoted(false, Some(n), r)
  }

  /** One payload character outside qualifiers, other than a backslash. */
  lemma BarePayloadStep(o: ReaderOptions, m: Machine, r: Radix, n: Numeric, c: CodeUnit)
    requires o.dialect.escapeMode == Backslash && !o.dialect.useTextQualifier
    requires AwaitingBarePayload(m, r, n) && Room(o, m, 1) && c != BackslashChar
    ensures var f := FeedDigit(r, n, c);
      Step(o, false, m, c) ==
        if f.Complete? then m.(last := c, phase := Unquoted(false, None, r), cur := m.cur + [f.value])
        else m.(last := c, phase := Unquoted(false, Some(f.n), r))
  {
  }

  /** The payload of a numeric escape outside qualifiers; a backslash inside it would start a new
      escape instead of counting as a digit, so the payload holds none. */
  lemma {:induction false} BarePayloadRead(o: ReaderOptions, m: Machine, r: Radix, n: Numeric, digits: Text)
    requires o.dialect.escapeMode == Backslash && !o.dialect.useTextQualifier
    requires AwaitingBarePayload(m, r, n) && Room(o, m, 1) && BackslashChar !in digits
    requires |digits| > 0 && n.count + |digits| == Width(r)
    ensures var (m', rest) := Run(o, false, m, digits);
      rest == [] && m' == m.(cur := m.cur + [Wrap(Value(r, n.acc as int, digits))], phase := Unquoted(false, None, r), last := m'.last)
    decreases |digits|
  {
    FeedAll(r, n, digits);
    assert digits[0] in digits;
    BarePayloadStep(o, m, r, n, digits[0]);
    var m1 := Step(o, false, m, digits[0]);
    assert Run(o, false, m, digits) == Run(o, false, m1, digits[1..]);
    if |digits| > 1 {
      assert BackslashChar !in digits[1..] by {
        assert forall x :: x in digits[1..] ==> x in digits;
      }
      BarePayloadRead(o, m1, r, FeedDigit(r, n, digits[0]).n, digits[1..]);
    }
  }

  lemma BareNumericEscape(o: ReaderOptions, m: Machine, intro: CodeUnit, digits: Text)
    requires o.dialect.escapeMode == Backslash && !o.dialect.useTextQualifier
    requires InBare(m) && Room(o, m, 1) && intro != BackslashChar && BackslashChar !in digits
    requires Introduce(m.phase.radix, intro).Start?
    requires var s := Introduce(m.phase.radix, intro); |digits| > 0 && s.n.count + |digits| == Width(s.radix)
    ensures var s := Introduce(m.phase.radix, intro);
      var (m', rest) := Run(o, false, m, [BackslashChar, intro] + digits);
      rest == [] && m' == m.(cur := m.cur + [Wrap(Value(s.radix, s.n.acc as int, digits))],
                             phase := Unquoted(false, None, s.radix), last := m'.last)
  {
    var Unquoted(_, _, radix) := m.phase;
    var s := Introduce(radix, intro);
    var m1 := m.(last := BackslashChar, phase := Unquoted(true, None, radix));
    BareBackslashStep(o, m);
    var m2 := m.(last := intro, phase := Unquoted(false, Some(s.n), s.radix));
    BareEscapedStartStep(o, m1, radix, intro);
    RunCons(o, false, m, BackslashChar, [intro] + digits);
    RunCons(o, false, m1, intro, digits);
    assert [BackslashChar, intro] + digits == [BackslashChar] + ([intro] + digits);
    BarePayloadRead(o, m2, s.radix, s.n, digits);
  }

  /** `\u` reuses the radix of the column's previous numeric escape: after `\x41`, the escape `\u`
      takes two hex digits, not four. */
  lemma UnicodeEscapeReusesRadix()
    ensures Introduce(Hex, 117) == Start(Hex, Numeric(0, 0))
    ensures Introduce(Unicode, 117) == Start(Unicode, Numeric(0, 0))
    ensures Width(Hex) == 2 && Width(Unicode) == 4
  {
  }
}
