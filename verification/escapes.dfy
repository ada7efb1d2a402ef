/** The backslash escape sequences the tokenizer decodes (CsvReader.ReadRecord, backslash mode). */
module Escapes {
  import opened Chars

  /** The payload kinds of a numeric escape (`ComplexEscape` in the source). */
  datatype Radix = Unicode | Octal | Decimal | Hex

  /** How many payload characters the escape consumes. */
  function Width(r: Radix): nat {
    match r
    case Unicode => 4
    case Octal => 3
    case Decimal => 3
    case Hex => 2
  }

  function Base(r: Radix): nat {
    match r
    case Unicode => 16
    case Octal => 8
    case Decimal => 10
    case Hex => 16
  }

  /** The source's `HexToDec`: no validation, 16-bit wrap-around for characters below '0'. */
  function HexToDec(c: CodeUnit): CodeUnit {
    if c >= 97 then Wrap(c as int - 97 + 10)
    else if c >= 65 then Wrap(c as int - 65 + 10)
    else Wrap(c as int - 48)
  }

  /** The value one payload character contributes. */
  function DigitValue(r: Radix, c: CodeUnit): CodeUnit {
    if r == Unicode || r == Hex then HexToDec(c) else Wrap(c as int - 48)
  }

  /** A numeric escape in progress: payload characters consumed so far and the accumulated char. */
  datatype Numeric = Numeric(count: nat, acc: CodeUnit)

  /** The result of feeding one payload character. */
  datatype Fed = Complete(value: CodeUnit) | Partial(n: Numeric)

  /** `acc *= base; acc += digit;` with C# char arithmetic, then the width test. */
  function FeedDigit(r: Radix, n: Numeric, c: CodeUnit): (f: Fed)
    ensures f.Complete? <==> n.count + 1 == Width(r)
    ensures f.Complete? ==> f.value == Wrap(n.acc as int * Base(r) + DigitValue(r, c) as int)
    ensures f.Partial? ==> f.n == Numeric(n.count + 1, Wrap(n.acc as int * Base(r) + DigitValue(r, c) as int))
  {
    var acc := Wrap(Wrap(n.acc as int * Base(r)) as int + DigitValue(r, c) as int);
    WrapAddWrapped(DigitValue(r, c) as int, n.acc as int * Base(r));
    if n.count + 1 == Width(r) then Complete(acc) else Partial(Numeric(n.count + 1, acc))
  }

  /** What the character after a backslash does. */
  datatype Introduced = Literal(c: CodeUnit) | Start(radix: Radix, n: Numeric)

  /** The switch on the character after the backslash. `previous` is the radix of the last numeric
      escape of the same field: `\u` and `\U` do not reset it. */
  function Introduce(previous: Radix, c: CodeUnit): Introduced {
    if c == 97 then Literal(Alert)                                   // \a
    else if c == 98 then Literal(Backspace)                          // \b
    else if c == 101 then Literal(Esc)                               // \e
    else if c == 102 then Literal(FF)                                // \f
    else if c == 110 then Literal(LF)                                // \n
    else if c == 114 then Literal(CR)                                // \r
    else if c == 116 then Literal(Tab)                               // \t
    else if c == 118 then Literal(VT)                                // \v
    else if c == 120 || c == 88 then Start(Hex, Numeric(0, 0))       // \x \X
    else if c == 100 || c == 68 then Start(Decimal, Numeric(0, 0))   // \d \D
    else if c == 111 || c == 79 then Start(Octal, Numeric(0, 0))     // \o \O
    else if c == 117 || c == 85 then Start(previous, Numeric(0, 0))  // \u \U
    else if 48 <= c <= 55 then Start(Octal, Numeric(1, c - 48))      // \0 .. \7
    else Literal(c)
  }

  /** The number a payload spells, read digit by digit after `acc`, with no truncation. */
  function Value(r: Radix, acc: int, digits: Text): int
    decreases |digits|
  {
    if |digits| == 0 then acc else Value(r, acc * Base(r) + DigitValue(r, digits[0]) as int, digits[1..])
  }

  lemma ModStep(a: int, b: int, k: int, d: int)
    requires a % Modulus == b % Modulus
    ensures (a * k + d) % Modulus == (b * k + d) % Modulus
  {
    var q := a / Modulus - b / Modulus;
    assert a - b == q * Modulus;
    assert a * k + d == (b * k + d) + (q * k) * Modulus;
  }

  /** Only the payload's value modulo 2^16 depends on the accumulator modulo 2^16. */
  lemma {:induction false} ValueCongruent(r: Radix, a: int, b: int, digits: Text)
    requires a % Modulus == b % Modulus
    ensures Value(r, a, digits) % Modulus == Value(r, b, digits) % Modulus
    decreases |digits|
  {
    if |digits| > 0 {
      var d := DigitValue(r, digits[0]) as int;
      ModStep(a, b, Base(r), d);
      ValueCongruent(r, a * Base(r) + d, b * Base(r) + d, digits[1..]);
    }
  }

  /** Feeding the payload one character at a time, with the 16-bit truncation after every step,
      ends once `Width(r)` characters have been consumed, with the payload's value modulo 2^16. */
  lemma {:induction false} FeedAll(r: Radix, n: Numeric, digits: Text)
    requires |digits| > 0 && n.count + |digits| == Width(r)
    ensures FeedDigit(r, n, digits[0]).Complete? <==> |digits| == 1
    ensures |digits| == 1 ==> FeedDigit(r, n, digits[0]).value == Wrap(Value(r, n.acc as int, digits))
    ensures |digits| > 1 ==>
      var n' := FeedDigit(r, n, digits[0]).n;
      n'.count + |digits[1..]| == Width(r) && Wrap(Value(r, n'.acc as int, digits[1..])) == Wrap(Value(r, n.acc as int, digits))
  {
    var d := DigitValue(r, digits[0]) as int;
    var x := n.acc as int * Base(r) + d;
    assert Wrap(x) as int % Modulus == x % Modulus;
    ValueCongruent(r, Wrap(x) as int, x, digits[1..]);
  }
}
