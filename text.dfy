/**
 String helpers the message texts need: Python's `str(n)` for a
 non-negative integer, and `sep.join(lines)`, each with its inverse.
 */
module Text {

  /** Index of the first `c` in `s`. */
  function IndexOf(s: string, c: char): (k: nat)
    requires c in s
    ensures k < |s| && s[k] == c && c !in s[..k]
  {
    if s[0] == c then 0
    else
      assert c in s[1..] by { var j :| 0 <= j < |s| && s[j] == c; assert s[1..][j - 1] == c; }
      var k := IndexOf(s[1..], c);
      assert s[..k + 1] == [s[0]] + s[1..][..k];
      k + 1
  }

  function DigitChar(d: nat): (c: char)
    requires d < 10
    ensures '0' <= c <= '9'
  {
    ['0', '1', '2', '3', '4', '5', '6', '7', '8', '9'][d]
  }

  function DigitValue(c: char): (d: nat)
    requires '0' <= c <= '9'
    ensures d < 10
  {
    (c as int - '0' as int) as nat
  }

  /** `str(n)`: the decimal digits of `n`, with no leading zero. */
  function Decimal(n: nat): (s: string)
    ensures |s| > 0
    ensures forall i :: 0 <= i < |s| ==> '0' <= s[i] <= '9'
    ensures |s| > 1 ==> s[0] != '0'
    decreases n
  {
    if n < 10 then [DigitChar(n)] else Decimal(n / 10) + [DigitChar(n % 10)]
  }

  /** The number a string of decimal digits denotes. */
  function ParseDecimal(s: string): nat
    requires forall i :: 0 <= i < |s| ==> '0' <= s[i] <= '9'
  {
    if s == [] then 0 else 10 * ParseDecimal(s[..|s| - 1]) + DigitValue(s[|s| - 1])
  }

  lemma DigitRoundTrip(d: nat)
    requires d < 10
    ensures DigitValue(DigitChar(d)) == d
  {
  }

  /** Reading back the decimal text of `n` gives `n`. */
  lemma {:induction false} DecimalRoundTrip(n: nat)
    ensures ParseDecimal(Decimal(n)) == n
    decreases n
  {
    if n < 10 {
      DigitRoundTrip(n);
    } else {
      var s := Decimal(n);
      var high, low := n / 10, n % 10;
      assert s == Decimal(high) + [DigitChar(low)];
      assert s[..|s| - 1] == Decimal(high);
      DecimalRoundTrip(high);
      DigitRoundTrip(low);
      assert ParseDecimal(s) == 10 * high + low;
    }
  }

  /** `[sep].join(lines)` for a non-empty list. */
  function JoinWith(lines: seq<string>, sep: char): (s: string)
    requires lines != []
    decreases |lines|
  {
    if |lines| == 1 then lines[0] else lines[0] + [sep] + JoinWith(lines[1..], sep)
  }

  /** `s.split(sep)`. */
  function Split(s: string, sep: char): (parts: seq<string>)
    ensures parts != []
    decreases |s|
  {
    if sep !in s then [s]
    else
      var k := IndexOf(s, sep);
      [s[..k]] + Split(s[k + 1..], sep)
  }

  /** The first separator of `head + [sep] + rest` is the one after `head`, when `head` has none. */
  lemma SplitsAfterHead(head: string, rest: string, sep: char)
    requires sep !in head
    ensures sep in head + [sep] + rest
    ensures Split(head + [sep] + rest, sep) == [head] + Split(rest, sep)
  {
    var s := head + [sep] + rest;
    assert s[|head|] == sep;
    var k := IndexOf(s, sep);
    assert s[..|head|] == head;
    assert k == |head|;
    assert s[k + 1..] == rest;
  }

  /** Lines that do not contain the separator are recovered by splitting their join. */
  lemma {:induction false} SplitJoin(lines: seq<string>, sep: char)
    requires lines != []
    requires forall i :: 0 <= i < |lines| ==> sep !in lines[i]
    ensures Split(JoinWith(lines, sep), sep) == lines
    decreases |lines|
  {
    if |lines| > 1 {
      SplitJoin(lines[1..], sep);
      SplitsAfterHead(lines[0], JoinWith(lines[1..], sep), sep);
    }
  }
}
