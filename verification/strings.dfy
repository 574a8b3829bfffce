/** String helpers that mirror Python's string repetition and joining. */
module Strings {

  /** Python's `n * [c]` on strings: `n` copies of `c`, and the empty string when `n <= 0`. */
  function Repeat(c: char, n: int): (r: string)
    ensures |r| == if n > 0 then n else 0
    ensures forall i :: 0 <= i < |r| ==> r[i] == c
    decreases if n > 0 then n else 0
  {
    if n <= 0 then "" else [c] + Repeat(c, n - 1)
  }

  /** The chunks joined in order with no separator. */
  function Concat(chunks: seq<string>): string
  {
    if |chunks| == 0 then "" else chunks[0] + Concat(chunks[1..])
  }

  /** Number of leading copies of `c` in `s`. */
  function LeadingCount(c: char, s: string): (n: nat)
    ensures n <= |s|
    ensures forall i :: 0 <= i < n ==> s[i] == c
    ensures n < |s| ==> s[n] != c
  {
    if |s| == 0 || s[0] != c then 0 else 1 + LeadingCount(c, s[1..])
  }

  /** Counting the copies that `Repeat` put in front of a string not starting with `c` gives them back. */
  lemma {:induction false} LeadingCountOfRepeat(c: char, n: nat, s: string)
    requires |s| == 0 || s[0] != c
    ensures LeadingCount(c, Repeat(c, n) + s) == n
    decreases n
  {
    if n > 0 {
      assert Repeat(c, n) + s == [c] + (Repeat(c, n - 1) + s);
      assert (Repeat(c, n) + s)[1..] == Repeat(c, n - 1) + s;
      LeadingCountOfRepeat(c, n - 1, s);
    }
  }

  /** Concatenation regroups freely. */
  lemma SeqAssoc<T>(a: seq<T>, b: seq<T>, c: seq<T>)
    ensures (a + b) + c == a + (b + c)
  {
  }

  /** A sequence built by putting `x` in front of `rest` splits back into the two. */
  lemma ConsParts<T>(x: T, rest: seq<T>)
    ensures ([x] + rest)[0] == x && ([x] + rest)[1..] == rest
  {
  }
}
