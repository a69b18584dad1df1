/** String helpers with JavaScript semantics: decimal digits and
    `Number(...)` on digit strings, `toString()` of non-negative integers,
    `padStart`, `startsWith`, `slice(0, end)` and `split` on one character.
    One `char` is one Unicode scalar value, while JavaScript counts
    lengths and positions in UTF-16 code units; the two agree on text inside
    the Basic Multilingual Plane.
 */
module Text {

  predicate IsDigit(c: char) {
    '0' <= c <= '9'
  }

  predicate AllDigits(s: string) {
    forall i :: 0 <= i < |s| ==> IsDigit(s[i])
  }

  function DigitValue(c: char): nat
    requires IsDigit(c)
  {
    (c as int) - ('0' as int)
  }

  function DigitChar(d: nat): (c: char)
    requires d < 10
    ensures IsDigit(c) && DigitValue(c) == d
  {
    (d + '0' as int) as char
  }

  /** `Number(s)` for a string of decimal digits; the empty string reads as 0
      and leading zeros are ignored. */
  function DigitsValue(s: string): nat
    requires AllDigits(s)
  {
    if s == [] then 0 else 10 * DigitsValue(s[..|s| - 1]) + DigitValue(s[|s| - 1])
  }

  /** `n.toString()` for a non-negative integer: its shortest decimal form. */
  function ShowNat(n: nat): (r: string)
    ensures |r| >= 1 && AllDigits(r)
    ensures |r| > 1 ==> r[0] != '0'
  {
    if n < 10 then [DigitChar(n)] else ShowNat(n / 10) + [DigitChar(n % 10)]
  }

  /** Reading back the decimal form gives the number: `Number(n.toString()) == n`. */
  lemma {:induction false} ReadShowNat(n: nat)
    ensures DigitsValue(ShowNat(n)) == n
  {
    if n >= 10 {
      var r := ShowNat(n);
      assert r[..|r| - 1] == ShowNat(n / 10);
      ReadShowNat(n / 10);
    }
  }

  /** Distinct numbers have distinct decimal forms. */
  lemma {:induction false} ShowNatInjective(m: nat, n: nat)
    ensures ShowNat(m) == ShowNat(n) <==> m == n
  {
    if ShowNat(m) == ShowNat(n) {
      ReadShowNat(m);
      ReadShowNat(n);
    }
  }

  /** Zeros in front of a digit string do not change the number it reads as. */
  lemma {:induction false} ReadLeadingZeros(z: string, s: string)
    requires forall i :: 0 <= i < |z| ==> z[i] == '0'
    requires AllDigits(s)
    ensures AllDigits(z + s) && DigitsValue(z + s) == DigitsValue(s)
    decreases |z| + |s|
  {
    if s == [] {
      assert z + s == z;
      if z != [] {
        assert (z + s)[..|z + s| - 1] == z[..|z| - 1] + [];
        ReadLeadingZeros(z[..|z| - 1], []);
      }
    } else {
      assert (z + s)[..|z + s| - 1] == z + s[..|s| - 1];
      ReadLeadingZeros(z, s[..|s| - 1]);
    }
  }

  /** `s.padStart(width, fill)` with a one-character `fill`. */
  function PadStart(s: string, width: nat, fill: char): (r: string)
    ensures |r| == if |s| < width then width else |s|
    ensures r[|r| - |s|..] == s
    ensures forall i :: 0 <= i < |r| - |s| ==> r[i] == fill
  {
    if |s| < width then seq(width - |s|, _ => fill) + s else s
  }

  /** `s.startsWith(prefix)`. */
  predicate StartsWith(s: string, prefix: string) {
    |prefix| <= |s| && s[..|prefix|] == prefix
  }

  /** `s.slice(0, end)`: a negative `end` counts back from the end of the
      string, and an `end` past the end stops there. */
  function SliceTo(s: string, end: int): (r: string)
    ensures 0 <= end <= |s| ==> r == s[..end]
    ensures |s| < end ==> r == s
    ensures end < 0 ==> r == s[..if |s| + end < 0 then 0 else |s| + end]
  {
    var k := if end < 0 then (if |s| + end < 0 then 0 else |s| + end)
             else if |s| < end then |s| else end;
    s[..k]
  }

  /** `c` does not occur in `s`. */
  predicate Free(s: string, c: char) {
    forall j :: 0 <= j < |s| ==> s[j] != c
  }

  /** `s.split(sep)` for a one-character separator: the pieces between the
      separators, one more piece than there are separators. */
  function Split(s: string, sep: char): (parts: seq<string>)
    ensures |parts| >= 1
    ensures forall i :: 0 <= i < |parts| ==> Free(parts[i], sep)
    ensures |parts| == 1 <==> Free(s, sep)
    decreases |s|
  {
    if s == [] then [[]]
    else
      var rest := Split(s[1..], sep);
      assert forall j :: 0 <= j < |s| - 1 ==> s[1..][j] == s[j + 1];
      if s[0] == sep then [[]] + rest
      else
        var parts := [[s[0]] + rest[0]] + rest[1..];
        assert forall i :: 1 <= i < |parts| ==> parts[i] == rest[i];
        parts
  }

  /** `parts.join(sep)`. */
  function Join(parts: seq<string>, sep: char): string
    requires |parts| >= 1
  {
    if |parts| == 1 then parts[0] else parts[0] + [sep] + Join(parts[1..], sep)
  }

  /** Joining a piece in front of at least one other puts a separator between them. */
  lemma JoinCons(head: string, rest: seq<string>, sep: char)
    requires |rest| >= 1
    ensures Join([head] + rest, sep) == head + [sep] + Join(rest, sep)
  {
    assert ([head] + rest)[1..] == rest;
  }

  /** Putting a character in front of the first piece puts it in front of the join. */
  lemma {:induction false} JoinPrefixHead(c: char, parts: seq<string>, sep: char)
    requires |parts| >= 1
    ensures Join([[c] + parts[0]] + parts[1..], sep) == [c] + Join(parts, sep)
  {
    var moved := [[c] + parts[0]] + parts[1..];
    assert moved[1..] == parts[1..];
    if |parts| > 1 {
      assert Join(moved, sep) == ([c] + parts[0]) + [sep] + Join(parts[1..], sep);
      assert Join(parts, sep) == parts[0] + [sep] + Join(parts[1..], sep);
    }
  }

  /** Joining the pieces of a split with the same separator restores the string. */
  lemma {:induction false} JoinSplit(s: string, sep: char)
    ensures Join(Split(s, sep), sep) == s
    decreases |s|
  {
    if s != [] {
      var rest := Split(s[1..], sep);
      assert Join(rest, sep) == s[1..] by { JoinSplit(s[1..], sep); }
      if s[0] == sep {
        JoinCons([], rest, sep);
      } else {
        JoinPrefixHead(s[0], rest, sep);
      }
      assert s == [s[0]] + s[1..];
    }
  }

  /** A string without the separator is one piece. */
  lemma {:induction false} SplitFree(a: string, sep: char)
    requires Free(a, sep)
    ensures Split(a, sep) == [a]
    decreases |a|
  {
    if a != [] {
      assert Free(a[1..], sep) by {
        forall j | 0 <= j < |a| - 1
          ensures a[1..][j] != sep
        {
          assert a[1..][j] == a[j + 1];
        }
      }
      SplitFree(a[1..], sep);
      assert [a[0]] + a[1..] == a;
    }
  }

  /** A separator-free piece, the separator and any rest split into that
      piece followed by the pieces of the rest. */
  lemma {:induction false} SplitAtSeparator(a: string, b: string, sep: char)
    requires Free(a, sep)
    ensures Split(a + [sep] + b, sep) == [a] + Split(b, sep)
    decreases |a|
  {
    var s := a + [sep] + b;
    if a == [] {
      assert s == [sep] + b;
      assert s[1..] == b;
    } else {
      assert s[1..] == a[1..] + [sep] + b;
      assert Free(a[1..], sep) by {
        forall j | 0 <= j < |a| - 1
          ensures a[1..][j] != sep
        {
          assert a[1..][j] == a[j + 1];
        }
      }
      SplitAtSeparator(a[1..], b, sep);
      assert [a[0]] + a[1..] == a;
    }
  }

  /** Splitting a join of separator-free pieces gives the pieces back. */
  lemma {:induction false} SplitJoin(parts: seq<string>, sep: char)
    requires |parts| >= 1
    requires forall i :: 0 <= i < |parts| ==> Free(parts[i], sep)
    ensures Split(Join(parts, sep), sep) == parts
  {
    if |parts| == 1 {
      SplitFree(parts[0], sep);
    } else {
      var head, rest := parts[0], parts[1..];
      assert parts == [head] + rest;
      assert Join(parts, sep) == head + [sep] + Join(rest, sep) by { JoinCons(head, rest, sep); }
      SplitAtSeparator(head, Join(rest, sep), sep);
      SplitJoin(rest, sep);
    }
  }
}
