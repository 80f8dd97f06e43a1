/**
  Decimal rendering of integers (what `std::to_string` and Python's `f"{n}"`
  produce for integers), joining with a separator, and the inverse parsers
  that show the renderings lose no information.
 */
module Text {

  predicate IsDigit(c: char) {
    '0' <= c <= '9'
  }

  /** The character for a decimal digit. */
  function DigitChar(d: nat): (c: char)
    requires d < 10
    ensures IsDigit(c)
  {
    (('0' as int) + d) as char
  }

  /** The value of a digit character; any other character reads as 0. */
  function DigitValue(c: char): nat {
    if IsDigit(c) then (c as int) - ('0' as int) else 0
  }

  /** A non-empty string made only of decimal digits. */
  predicate IsDigits(s: string) {
    |s| > 0 && forall i :: 0 <= i < |s| ==> IsDigit(s[i])
  }

  /** Decimal representation of a natural number, without leading zeros. */
  function NatToString(n: nat): (s: string)
    ensures IsDigits(s)
    ensures |s| == 1 <==> n < 10
    decreases n
  {
    if n < 10 then [DigitChar(n)] else NatToString(n / 10) + [DigitChar(n % 10)]
  }

  /** Reads a string of digits as a natural number (most significant digit first). */
  function ParseNat(s: string): nat
    decreases |s|
  {
    if |s| == 0 then 0 else ParseNat(s[..|s| - 1]) * 10 + DigitValue(s[|s| - 1])
  }

  lemma {:induction false} ParseNatToString(n: nat)
    ensures ParseNat(NatToString(n)) == n
    decreases n
  {
    var s := NatToString(n);
    if n < 10 {
      assert s[..|s| - 1] == [];
    } else {
      assert s[..|s| - 1] == NatToString(n / 10);
      ParseNatToString(n / 10);
    }
  }

  /** Decimal representation of an integer: a leading '-' for negative values. */
  function IntToString(i: int): (s: string)
    ensures |s| > 0
    ensures forall k :: 0 <= k < |s| ==> s[k] == '-' || IsDigit(s[k])
    ensures s[0] == '-' <==> i < 0
  {
    if i < 0 then "-" + NatToString(-i) else NatToString(i)
  }

  /** Inverse of IntToString. */
  function ParseInt(s: string): int {
    if |s| > 0 && s[0] == '-' then -(ParseNat(s[1..]) as int) else ParseNat(s)
  }

  lemma ParseIntToString(i: int)
    ensures ParseInt(IntToString(i)) == i
  {
    if i < 0 {
      assert IntToString(i)[1..] == NatToString(-i);
      ParseNatToString(-i);
    } else {
      ParseNatToString(i);
    }
  }

  /** Concatenation of `parts` with `sep` between consecutive parts. */
  function Join(parts: seq<string>, sep: char): string
    decreases |parts|
  {
    if |parts| == 0 then ""
    else if |parts| == 1 then parts[0]
    else parts[0] + [sep] + Join(parts[1..], sep)
  }

  /** Cuts `s` at every occurrence of `sep`; always at least one piece. */
  function Split(s: string, sep: char): (pieces: seq<string>)
    ensures |pieces| > 0
    decreases |s|
  {
    if |s| == 0 then [[]]
    else
      var rest := Split(s[1..], sep);
      if s[0] == sep then [[]] + rest else [[s[0]] + rest[0]] + rest[1..]
  }

  /** Split, except that the empty string is the empty list. */
  function SplitList(s: string, sep: char): seq<string> {
    if |s| == 0 then [] else Split(s, sep)
  }

  lemma {:induction false} SplitPrefix(x: string, t: string, sep: char)
    requires sep !in x
    ensures Split(x + t, sep) == [x + Split(t, sep)[0]] + Split(t, sep)[1..]
    decreases |x|
  {
    if |x| > 0 {
      assert (x + t)[1..] == x[1..] + t;
      SplitPrefix(x[1..], t, sep);
      assert [x[0]] + (x[1..] + Split(t, sep)[0]) == x + Split(t, sep)[0];
    } else {
      var pieces := Split(t, sep);
      assert x + t == t;
      assert x + pieces[0] == pieces[0];
      assert [pieces[0]] + pieces[1..] == pieces;
    }
  }

  /** Each part is a non-empty piece that does not contain the separator. */
  predicate Separable(parts: seq<string>, sep: char) {
    forall i :: 0 <= i < |parts| ==> |parts[i]| > 0 && sep !in parts[i]
  }

  lemma {:induction false} SplitJoin(parts: seq<string>, sep: char)
    requires |parts| > 0
    requires forall i :: 0 <= i < |parts| ==> sep !in parts[i]
    ensures Split(Join(parts, sep), sep) == parts
    decreases |parts|
  {
    if |parts| == 1 {
      SplitPrefix(parts[0], [], sep);
      assert parts[0] + [] == parts[0];
    } else {
      var tail := Join(parts[1..], sep);
      assert Join(parts, sep) == parts[0] + ([sep] + tail);
      SplitPrefix(parts[0], [sep] + tail, sep);
      assert ([sep] + tail)[1..] == tail;
      assert Split([sep] + tail, sep) == [[]] + Split(tail, sep);
      SplitJoin(parts[1..], sep);
      assert parts[0] + [] == parts[0];
      assert [parts[0]] + parts[1..] == parts;
    }
  }

  /** Joining non-empty separator-free parts can be undone. */
  lemma SplitListJoin(parts: seq<string>, sep: char)
    requires Separable(parts, sep)
    ensures SplitList(Join(parts, sep), sep) == parts
  {
    if |parts| > 0 {
      SplitJoin(parts, sep);
      if |parts| > 1 {
        assert Join(parts, sep) == parts[0] + ([sep] + Join(parts[1..], sep));
      }
    }
  }

  /** The decimal representations of a list of integers. */
  function Numerals(xs: seq<int>): (parts: seq<string>)
    ensures |parts| == |xs|
    ensures forall i :: 0 <= i < |xs| ==> parts[i] == IntToString(xs[i])
    decreases |xs|
  {
    if |xs| == 0 then [] else [IntToString(xs[0])] + Numerals(xs[1..])
  }

  /** Inverse of Numerals. */
  function ParseInts(parts: seq<string>): (xs: seq<int>)
    ensures |xs| == |parts|
    ensures forall i :: 0 <= i < |parts| ==> xs[i] == ParseInt(parts[i])
    decreases |parts|
  {
    if |parts| == 0 then [] else [ParseInt(parts[0])] + ParseInts(parts[1..])
  }

  /** A numeral contains only '-' and digits, so no other separator occurs in it. */
  lemma NumeralsSeparable(xs: seq<int>, sep: char)
    requires sep != '-' && !IsDigit(sep)
    ensures Separable(Numerals(xs), sep)
  {
    var parts := Numerals(xs);
    forall i | 0 <= i < |parts|
      ensures |parts[i]| > 0 && sep !in parts[i]
    {
      var s := IntToString(xs[i]);
      assert parts[i] == s;
      assert forall k :: 0 <= k < |s| ==> s[k] != sep;
    }
  }

  /** A comma-separated list of integers, as the state key and the CSV rows write it. */
  function IntList(xs: seq<int>, sep: char): string {
    Join(Numerals(xs), sep)
  }

  /** Inverse of IntList. */
  function ParseIntList(s: string, sep: char): seq<int> {
    ParseInts(SplitList(s, sep))
  }

  lemma IntListRoundTrip(xs: seq<int>, sep: char)
    requires sep != '-' && !IsDigit(sep)
    ensures ParseIntList(IntList(xs, sep), sep) == xs
  {
    NumeralsSeparable(xs, sep);
    SplitListJoin(Numerals(xs), sep);
    var ys := ParseIntList(IntList(xs, sep), sep);
    forall i | 0 <= i < |xs|
      ensures ys[i] == xs[i]
    {
      ParseIntToString(xs[i]);
    }
  }

  /** An IntList contains only '-', digits and `sep`. */
  lemma IntListAlphabet(xs: seq<int>, sep: char, c: char)
    requires c != sep && c != '-' && !IsDigit(c)
    ensures c !in IntList(xs, sep)
  {
    JoinAlphabet(Numerals(xs), sep, c);
  }

  lemma {:induction false} JoinAlphabet(parts: seq<string>, sep: char, c: char)
    requires c != sep
    requires forall i, k :: 0 <= i < |parts| && 0 <= k < |parts[i]| ==> parts[i][k] == '-' || IsDigit(parts[i][k])
    requires c != '-' && !IsDigit(c)
    ensures c !in Join(parts, sep)
    decreases |parts|
  {
    if |parts| > 0 {
      assert forall k :: 0 <= k < |parts[0]| ==> parts[0][k] != c;
    }
    if |parts| > 1 {
      JoinAlphabet(parts[1..], sep, c);
    }
  }
}
