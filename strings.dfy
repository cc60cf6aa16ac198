/** The parts of Python's built-in `str` and `list` behaviour the application relies on:
    lower-casing, `rfind`, ordering and sorting of strings, and decimal formatting of
    integers in f-strings. */
module Strings {

  /** `c.lower()` for ASCII capitals; every other character is left unchanged. */
  function LowerChar(c: char): char {
    if 'A' <= c <= 'Z' then (c as int - 'A' as int + 'a' as int) as char else c
  }

  /** `s.lower()`, character by character. */
  function Lower(s: string): (r: string)
    ensures |r| == |s|
    ensures forall i :: 0 <= i < |s| ==> r[i] == LowerChar(s[i])
  {
    seq(|s|, i requires 0 <= i < |s| => LowerChar(s[i]))
  }

  /** `s.rfind(c)`: the last index holding `c`, or -1 when there is none. */
  function RFind(s: string, c: char): (i: int)
    ensures -1 <= i < |s|
    ensures i >= 0 ==> s[i] == c
    ensures forall j :: i < j < |s| ==> s[j] != c
  {
    if s == [] then -1
    else if s[|s| - 1] == c then |s| - 1
    else RFind(s[..|s| - 1], c)
  }

  /** `a <= b` on Python strings: lexicographic comparison of code points. */
  predicate LexLe(a: string, b: string)
    decreases |a|
  {
    a == [] || (b != [] && (a[0] < b[0] || (a[0] == b[0] && LexLe(a[1..], b[1..]))))
  }

  lemma {:induction false} LexLeTotal(a: string, b: string)
    ensures LexLe(a, b) || LexLe(b, a)
    decreases |a|
  {
    if a != [] && b != [] && a[0] == b[0] {
      LexLeTotal(a[1..], b[1..]);
    }
  }

  lemma {:induction false} LexLeTransitive(a: string, b: string, c: string)
    requires LexLe(a, b) && LexLe(b, c)
    ensures LexLe(a, c)
    decreases |a|
  {
    if a != [] && b != [] && c != [] && a[0] == b[0] && b[0] == c[0] {
      LexLeTransitive(a[1..], b[1..], c[1..]);
    }
  }

  lemma {:induction false} LexLeAntisymmetric(a: string, b: string)
    requires LexLe(a, b) && LexLe(b, a)
    ensures a == b
    decreases |a|
  {
    if a != [] {
      LexLeAntisymmetric(a[1..], b[1..]);
      assert a == [a[0]] + a[1..] && b == [b[0]] + b[1..];
    }
  }

  /** Every element is at most every later one. */
  ghost predicate Sorted(s: seq<string>) {
    forall i, j :: 0 <= i < j < |s| ==> LexLe(s[i], s[j])
  }

  /** Places `x` into a sorted list after the elements not greater than it. */
  function Insert(s: seq<string>, x: string): (r: seq<string>)
    requires Sorted(s)
    ensures Sorted(r)
    ensures multiset(r) == multiset(s) + multiset{x}
    decreases |s|, 1
  {
    if s == [] then [x]
    else if LexLe(s[0], x) then InsertAfterHead(s, x)
    else InsertFront(s, x)
  }

  function InsertFront(s: seq<string>, x: string): (r: seq<string>)
    requires Sorted(s) && s != [] && !LexLe(s[0], x)
    ensures r == [x] + s && Sorted(r)
  {
    LexLeTotal(s[0], x);
    forall j | 0 <= j < |s| ensures LexLe(x, s[j]) {
      if j > 0 { LexLeTransitive(x, s[0], s[j]); }
    }
    [x] + s
  }

  function InsertAfterHead(s: seq<string>, x: string): (r: seq<string>)
    requires Sorted(s) && s != [] && LexLe(s[0], x)
    ensures Sorted(r)
    ensures multiset(r) == multiset(s) + multiset{x}
    decreases |s|, 0
  {
    var tail := Insert(s[1..], x);
    var r := [s[0]] + tail;
    assert s == [s[0]] + s[1..];
    forall k | 0 <= k < |tail| ensures LexLe(s[0], tail[k]) {
      assert tail[k] in multiset(tail);
      if tail[k] != x {
        assert tail[k] in multiset(s[1..]);
        var j :| 0 <= j < |s[1..]| && s[1..][j] == tail[k];
        assert s[j + 1] == tail[k];
      }
    }
    r
  }

  /** `sorted(s)` on a list of strings. */
  function Sort(s: seq<string>): (r: seq<string>)
    ensures Sorted(r)
    ensures multiset(r) == multiset(s)
  {
    if s == [] then []
    else
      assert s == s[..|s| - 1] + [s[|s| - 1]];
      Insert(Sort(s[..|s| - 1]), s[|s| - 1])
  }

  /** The character for one decimal digit. */
  function DigitChar(d: nat): (c: char)
    requires d < 10
    ensures '0' <= c <= '9'
  {
    ('0' as int + d) as char
  }

  /** The value of a decimal digit character (other characters count as 0). */
  function DigitValue(c: char): nat {
    if '0' <= c <= '9' then c as int - '0' as int else 0
  }

  /** `f"{n}"` for a non-negative integer. */
  function NatToString(n: nat): (r: string)
    ensures r != []
    ensures forall i :: 0 <= i < |r| ==> '0' <= r[i] <= '9'
  {
    if n < 10 then [DigitChar(n)] else NatToString(n / 10) + [DigitChar(n % 10)]
  }

  /** `int(s)` for a string of decimal digits. */
  function StringToNat(s: string): nat {
    if s == [] then 0 else StringToNat(s[..|s| - 1]) * 10 + DigitValue(s[|s| - 1])
  }

  lemma {:induction false} DecimalRoundTrip(n: nat)
    ensures StringToNat(NatToString(n)) == n
  {
    if n >= 10 {
      var s := NatToString(n / 10) + [DigitChar(n % 10)];
      assert s[..|s| - 1] == NatToString(n / 10);
      DecimalRoundTrip(n / 10);
    }
  }

  /** Different counters print differently. */
  lemma NatToStringInjective(a: nat, b: nat)
    requires NatToString(a) == NatToString(b)
    ensures a == b
  {
    DecimalRoundTrip(a);
    DecimalRoundTrip(b);
  }
}
