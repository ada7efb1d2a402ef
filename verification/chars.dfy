/** UTF-16 code units and the handful of string operations of the .NET library the CSV code relies on. */
module Chars {

  /** A .NET `char`: one UTF-16 code unit. Arithmetic on it wraps modulo 2^16. */
  newtype CodeUnit = x: int | 0 <= x < 0x1_0000

  /** A .NET `string`: a sequence of code units. */
  type Text = seq<CodeUnit>

  const Modulus: int := 0x1_0000

  const Nul: CodeUnit := 0
  const Alert: CodeUnit := 7
  const Backspace: CodeUnit := 8
  const Tab: CodeUnit := 9
  const LF: CodeUnit := 10
  const VT: CodeUnit := 11
  const FF: CodeUnit := 12
  const CR: CodeUnit := 13
  const Esc: CodeUnit := 27
  const Space: CodeUnit := 32
  const DoubleQuote: CodeUnit := 34
  const Hash: CodeUnit := 35
  const Comma: CodeUnit := 44
  const Minus: CodeUnit := 45
  const Digit0: CodeUnit := 48
  const BackslashChar: CodeUnit := 92

  /** The code unit of a Basic Multilingual Plane character literal. */
  function Of(c: char): (u: CodeUnit)
    requires c as int < Modulus
    ensures u as int == c as int
  {
    c as int as CodeUnit
  }

  /** A string literal as code units (every character of `s` must lie in the BMP). */
  function FromString(s: string): (t: Text)
    requires forall i :: 0 <= i < |s| ==> s[i] as int < Modulus
    ensures |t| == |s|
    ensures forall i :: 0 <= i < |s| ==> t[i] as int == s[i] as int
  {
    if |s| == 0 then [] else [Of(s[0])] + FromString(s[1..])
  }

  /** The C# cast `(char)x`: keeps the low 16 bits of an integer. */
  function Wrap(x: int): (u: CodeUnit)
    ensures u as int == x % Modulus
    ensures 0 <= x < Modulus ==> u as int == x
  {
    (x % Modulus) as CodeUnit
  }

  lemma WrapAddWrapped(a: int, b: int)
    ensures Wrap(a + Wrap(b) as int) == Wrap(a + b)
  {
  }

  /** Appending is associative; stated once so that long texts need not be re-associated in place. */
  lemma AppendAssoc(a: Text, b: Text, c: Text)
    ensures (a + b) + c == a + (b + c)
  {
  }

  lemma SplitFirst(a: Text, b: Text)
    requires |a| > 0
    ensures a + b == [a[0]] + (a[1..] + b)
  {
    assert a == [a[0]] + a[1..];
  }

  /** The parts, in order, with `sep` between each two of them. */
  function Join(parts: seq<Text>, sep: CodeUnit): (r: Text)
    requires |parts| > 0
    ensures |parts| == 1 ==> r == parts[0]
    decreases |parts|
  {
    if |parts| == 1 then parts[0] else parts[0] + [sep] + Join(parts[1..], sep)
  }

  /** The two characters `String.Trim(' ', '\t')` and the tokenizer treat as padding. */
  predicate IsSpaceOrTab(c: CodeUnit) {
    c == Space || c == Tab
  }

  /** `Char.IsWhiteSpace`: the Unicode separators plus the control characters 9-13 and 0x85. */
  predicate IsWhiteSpace(c: CodeUnit) {
    || (Tab <= c <= CR) || c == Space || c == 0x85 || c == 0xA0 || c == 0x1680
    || (0x2000 <= c <= 0x200A) || c == 0x2028 || c == 0x2029 || c == 0x202F
    || c == 0x205F || c == 0x3000
  }

  /** The number of leading characters of `s` that satisfy `pad`. */
  function LeadCount(s: Text, pad: CodeUnit -> bool): (n: nat)
    ensures n <= |s|
    ensures forall k :: 0 <= k < n ==> pad(s[k])
    ensures n == |s| || !pad(s[n])
  {
    if |s| == 0 || !pad(s[0]) then 0
    else
      var n := LeadCount(s[1..], pad);
      assert forall k :: 1 <= k < n + 1 ==> s[k] == s[1..][k - 1];
      1 + n
  }

  /** The number of trailing characters of `s` that satisfy `pad`. */
  function TrailCount(s: Text, pad: CodeUnit -> bool): (n: nat)
    ensures n <= |s|
    ensures forall k :: |s| - n <= k < |s| ==> pad(s[k])
    ensures n == |s| || !pad(s[|s| - n - 1])
  {
    if |s| == 0 || !pad(s[|s| - 1]) then 0 else 1 + TrailCount(s[..|s| - 1], pad)
  }

  /** Drops the padding at both ends: what is left is the slice of `s` that starts after the leading
      padding, and everything outside it is padding. */
  function Trim(s: Text, pad: CodeUnit -> bool): (r: Text)
    ensures LeadCount(s, pad) + |r| <= |s|
    ensures r == s[LeadCount(s, pad)..LeadCount(s, pad) + |r|]
    ensures |r| == 0 || (!pad(r[0]) && !pad(r[|r| - 1]))
    ensures forall k :: 0 <= k < |s| && !(LeadCount(s, pad) <= k < LeadCount(s, pad) + |r|) ==> pad(s[k])
  {
    var i := LeadCount(s, pad);
    var j := TrailCount(s[i..], pad);
    TrimEnds(s, pad);
    s[i..|s| - j]
  }

  /** The padding `Trim` drops: the leading run, then the trailing run of what is left. */
  lemma TrimEnds(s: Text, pad: CodeUnit -> bool)
    ensures var i := LeadCount(s, pad);
      var j := TrailCount(s[i..], pad);
      && i + j <= |s|
      && (forall k :: 0 <= k < |s| && !(i <= k < |s| - j) ==> pad(s[k]))
      && (i < |s| - j ==> !pad(s[i]) && !pad(s[|s| - j - 1]))
  {
    var i := LeadCount(s, pad);
    var j := TrailCount(s[i..], pad);
    TrimDropsPadding(s, pad, i, j);
    if i < |s| - j {
      DropAt(s, i, |s| - j - 1);
    }
  }

  lemma TrimDropsPadding(s: Text, pad: CodeUnit -> bool, i: nat, j: nat)
    requires i == LeadCount(s, pad) && j == TrailCount(s[i..], pad)
    ensures forall k :: 0 <= k < |s| && !(i <= k < |s| - j) ==> pad(s[k])
  {
    forall k | 0 <= k < |s| && !(i <= k < |s| - j)
      ensures pad(s[k])
    {
      if k >= |s| - j {
        DropAt(s, i, k);
      }
    }
  }

  lemma DropAt(s: Text, i: nat, k: nat)
    requires i <= k < |s|
    ensures s[i..][k - i] == s[k]
  {
  }

  /** `String.Trim(new char[] { ' ', '\t' })`. */
  function TrimSpaceTab(s: Text): Text {
    Trim(s, IsSpaceOrTab)
  }

  /** `String.Trim()`: removes every `Char.IsWhiteSpace` character at either end. */
  function TrimWhiteSpace(s: Text): Text {
    Trim(s, IsWhiteSpace)
  }

  /** A string with no padding at either end is left alone by the trim. */
  lemma TrimSpaceTabUnpadded(s: Text)
    requires |s| == 0 || (!IsSpaceOrTab(s[0]) && !IsSpaceOrTab(s[|s| - 1]))
    ensures TrimSpaceTab(s) == s
  {
  }

  /** `String.Replace(a.ToString(), t)` for a one-character pattern: every `a` becomes `t`. */
  function Replace(s: Text, a: CodeUnit, t: Text): (r: Text)
    ensures a !in s ==> r == s
    ensures forall c :: c in r && c !in t ==> c in s && c != a
  {
    if |s| == 0 then []
    else (if s[0] == a then t else [s[0]]) + Replace(s[1..], a, t)
  }

  lemma {:induction false} ReplaceAppend(x: Text, y: Text, a: CodeUnit, t: Text)
    ensures Replace(x + y, a, t) == Replace(x, a, t) + Replace(y, a, t)
  {
    if |x| == 0 {
      assert x + y == y;
    } else {
      assert (x + y)[1..] == x[1..] + y;
      ReplaceAppend(x[1..], y, a, t);
    }
  }

  /** Upper-casing of the ASCII letters (the invariant part of `String.ToUpper`). */
  function UpperAscii(c: CodeUnit): (u: CodeUnit)
    ensures 97 <= c <= 122 ==> u as int == c as int - 32
    ensures !(97 <= c <= 122) ==> u == c
  {
    if 97 <= c <= 122 then c - 32 else c
  }

  function ToUpper(s: Text): (r: Text)
    ensures |r| == |s|
    ensures forall i :: 0 <= i < |s| ==> r[i] == UpperAscii(s[i])
  {
    seq(|s|, i requires 0 <= i < |s| => UpperAscii(s[i]))
  }

  /** `ToUpper` of a type name written with Dafny characters. */
  function UpperName(s: string): (r: string)
    ensures |r| == |s|
    ensures forall i :: 0 <= i < |s| ==> r[i] == (if 'a' <= s[i] <= 'z' then s[i] - 'a' + 'A' else s[i])
  {
    seq(|s|, i requires 0 <= i < |s| => if 'a' <= s[i] <= 'z' then s[i] - 'a' + 'A' else s[i])
  }
}
