/**
 * The string operations the trigger log's printable form is made of:
 * Python's `sep.join(xs)` and `s.split(sep)`, the accumulation
 * `line += f"{x},"`, and `str(n)` for a natural number.
 */
module TextFormat {

  /** `sep.join(xs)`. */
  function Join(xs: seq<string>, sep: char): string
  {
    if |xs| == 0 then ""
    else if |xs| == 1 then xs[0]
    else xs[0] + [sep] + Join(xs[1..], sep)
  }

  /** The text built by appending every element followed by `sep`. */
  function Terminated(xs: seq<string>, sep: char): string
  {
    if xs == [] then "" else xs[0] + [sep] + Terminated(xs[1..], sep)
  }

  /** The position of the first `c` in `s`. */
  function IndexOf(s: string, c: char): (i: nat)
    requires c in s
    ensures i < |s| && s[i] == c && c !in s[..i]
  {
    if s[0] == c then 0 else 1 + IndexOf(s[1..], c)
  }

  /** `s.split(sep)`: the pieces between the separators; never empty. */
  function Split(s: string, sep: char): (parts: seq<string>)
    ensures |parts| >= 1
    decreases |s|
  {
    if sep !in s then [s]
    else
      var i := IndexOf(s, sep);
      [s[..i]] + Split(s[i + 1..], sep)
  }

  /** Whether no element of `xs` contains `c`. */
  predicate Avoids(xs: seq<string>, c: char) {
    forall k :: 0 <= k < |xs| ==> c !in xs[k]
  }

  /** Appending one more element to the accumulated text. */
  lemma {:induction false} TerminatedSnoc(xs: seq<string>, x: string, sep: char)
    ensures Terminated(xs + [x], sep) == Terminated(xs, sep) + x + [sep]
    decreases |xs|
  {
    if xs != [] {
      assert (xs + [x])[1..] == xs[1..] + [x];
      TerminatedSnoc(xs[1..], x, sep);
    }
  }

  /** Dropping the trailing separator from the accumulated text gives the
      joined text. */
  lemma {:induction false} TerminatedIsJoin(xs: seq<string>, sep: char)
    requires xs != []
    ensures Terminated(xs, sep) == Join(xs, sep) + [sep]
    decreases |xs|
  {
    if |xs| > 1 {
      TerminatedIsJoin(xs[1..], sep);
    }
  }

  /** Splitting `x + sep + rest` where `x` has no separator yields `x`
      followed by the pieces of `rest`. */
  lemma SplitHead(x: string, rest: string, sep: char)
    requires sep !in x
    ensures Split(x + [sep] + rest, sep) == [x] + Split(rest, sep)
  {
    var s := x + [sep] + rest;
    assert s[|x|] == sep;
    var i := IndexOf(s, sep);
    assert i == |x|;
    assert s[..i] == x;
    assert s[i + 1..] == rest;
  }

  /** Splitting a joined sequence gives it back when no element contains
      the separator. */
  lemma {:induction false} SplitJoin(xs: seq<string>, sep: char)
    requires xs != [] && Avoids(xs, sep)
    ensures Split(Join(xs, sep), sep) == xs
    decreases |xs|
  {
    if |xs| == 1 {
      assert sep !in xs[0];
    } else {
      assert sep !in xs[0];
      SplitJoin(xs[1..], sep);
      SplitHead(xs[0], Join(xs[1..], sep), sep);
    }
  }

  predicate IsDigit(c: char) {
    '0' <= c <= '9'
  }

  predicate IsDecimal(s: string) {
    |s| >= 1 && forall k :: 0 <= k < |s| ==> IsDigit(s[k])
  }

  function DigitChar(d: nat): (c: char)
    requires d < 10
    ensures IsDigit(c) && c as int - '0' as int == d
  {
    ('0' as int + d) as char
  }

  /** `str(n)`: the decimal digits of `n`, most significant first. */
  function NatToDecimal(n: nat): (s: string)
    ensures IsDecimal(s)
    ensures |s| == 1 || s[0] != '0'
    ensures n > 0 ==> s[0] != '0'
    decreases n
  {
    if n < 10 then [DigitChar(n)]
    else NatToDecimal(n / 10) + [DigitChar(n % 10)]
  }

  function DigitValue(c: char): nat
    requires IsDigit(c)
  {
    c as int - '0' as int
  }

  /** `int(s)` for a string of decimal digits. */
  function DecimalValue(s: string): nat
    requires forall k :: 0 <= k < |s| ==> IsDigit(s[k])
  {
    if s == [] then 0
    else DecimalValue(s[..|s| - 1]) * 10 + DigitValue(s[|s| - 1])
  }

  /** `int(str(n)) == n`. */
  lemma {:induction false} DecimalRoundTrip(n: nat)
    ensures DecimalValue(NatToDecimal(n)) == n
    decreases n
  {
    if n >= 10 {
      DecimalRoundTrip(n / 10);
      var s := NatToDecimal(n);
      assert s[..|s| - 1] == NatToDecimal(n / 10);
    }
  }

  /** A decimal string never contains the field separator. */
  lemma DecimalHasNoComma(n: nat)
    ensures ',' !in NatToDecimal(n)
  {
  }
}
