/** The reader's growable arrays: the column character buffer that `AddLetter` appends to and the
    column array that `EndColumn` appends to. Both start small and, when full, are replaced by a
    copy half again as large. The tokenizer model keeps their contents as sequences; this module
    shows that the arrays hold exactly those sequences whatever their capacity. */
module Buffers {
  /** The initial size of the column character buffer. */
  const InitialLetterCapacity: nat := 100

  /** The initial size of the column array. */
  const InitialColumnCapacity: nat := 10

  /** The capacity after a full buffer grows: half again as large, and at least one more. */
  function NextCapacity(n: nat): (m: nat)
    ensures n < m
    ensures 3 * n <= 2 * m + 1 && 2 * m <= 3 * n + 2
  {
    n + if n * 1 / 2 > 1 then n * 1 / 2 else 1
  }

  /** A copy of `a` in a new array of the next capacity; the slots past `a`'s length keep the
      element type's default. */
  method Grow<T(0)>(a: array<T>) returns (b: array<T>)
    ensures fresh(b)
    ensures b.Length == NextCapacity(a.Length)
    ensures b[..a.Length] == a[..]
  {
    b := new T[NextCapacity(a.Length)];
    var i := 0;
    while i < a.Length
      invariant 0 <= i <= a.Length
      invariant b[..i] == a[..i]
    {
      b[i] := a[i];
      i := i + 1;
    }
  }

  /** Appending the items of `s` one by one to a buffer of `initial` slots, growing it whenever it
      is full before an append: the buffer ends up holding exactly `s`, and it grows only when `s`
      does not fit in the initial slots. */
  method Collect<T(0)>(s: seq<T>, initial: nat) returns (buf: array<T>, used: nat)
    ensures used == |s| <= buf.Length
    ensures buf[..used] == s
    ensures |s| <= initial ==> buf.Length == initial
    ensures buf.Length <= (if |s| <= initial then initial else NextCapacity(|s| - 1))
  {
    buf := new T[initial];
    used := 0;
    while used < |s|
      invariant used <= |s| && used <= buf.Length
      invariant fresh(buf)
      invariant buf[..used] == s[..used]
      invariant used <= initial ==> buf.Length == initial
      invariant used > initial ==> buf.Length <= NextCapacity(used - 1)
    {
      if used == buf.Length {
        buf := Grow(buf);
      }
      buf[used] := s[used];
      used := used + 1;
    }
  }
}
