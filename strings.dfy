/**
 * The few JavaScript string operations the core relies on: integer-to-string
 * conversion in template literals, `String.prototype.split` with a one-character
 * separator, and the three regular-expression replacements used when deriving
 * file extensions.  Strings are sequences of characters.
 */
module Strings {

  predicate IsDigit(c: char) {
    '0' <= c <= '9'
  }

  predicate AllDigits(s: string) {
    forall i :: 0 <= i < |s| ==> IsDigit(s[i])
  }

  function DigitChar(d: nat): (c: char)
    requires d < 10
    ensures IsDigit(c) && c as int - '0' as int == d
  {
    ('0' as int + d) as char
  }

  /** `${n}` for a non-negative integer: its decimal numeral. */
  function NatToString(n: nat): (s: string)
    ensures |s| > 0 && AllDigits(s)
    ensures s[0] == '0' <==> n == 0
    ensures |s| == 1 || s[0] != '0'
    decreases n
  {
    if n < 10 then [DigitChar(n)] else NatToString(n / 10) + [DigitChar(n % 10)]
  }

  /** The number a string of decimal digits denotes. */
  function DecimalValue(s: string): nat
    requires AllDigits(s)
    decreases |s|
  {
    if s == [] then 0
    else DecimalValue(s[..|s| - 1]) * 10 + (s[|s| - 1] as int - '0' as int)
  }

  /** Reading back the numeral of `n` gives `n`. */
  lemma {:induction false} NatToStringRoundTrip(n: nat)
    ensures DecimalValue(NatToString(n)) == n
    decreases n
  {
    if n >= 10 {
      NatToStringRoundTrip(n / 10);
      var s := NatToString(n);
      assert s[..|s| - 1] == NatToString(n / 10);
    }
  }

  /** Distinct numbers have distinct numerals. */
  lemma NatToStringInjective(m: nat, n: nat)
    ensures NatToString(m) == NatToString(n) <==> m == n
  {
    if NatToString(m) == NatToString(n) {
      NatToStringRoundTrip(m);
      NatToStringRoundTrip(n);
    }
  }

  /** Number of occurrences of `c` in `s`. */
  function Count(s: string, c: char): nat
    decreases |s|
  {
    if s == [] then 0 else (if s[0] == c then 1 else 0) + Count(s[1..], c)
  }

  /** `s.split(sep)` for a one-character separator. */
  function Split(s: string, sep: char): (parts: seq<string>)
    ensures |parts| > 0
    decreases |s|
  {
    if s == [] then [""]
    else
      var rest := Split(s[1..], sep);
      if s[0] == sep then [""] + rest else [[s[0]] + rest[0]] + rest[1..]
  }

  /** `parts.join(sep)`. */
  function Join(parts: seq<string>, sep: char): string
    decreases |parts|
  {
    if |parts| == 0 then ""
    else if |parts| == 1 then parts[0]
    else parts[0] + [sep] + Join(parts[1..], sep)
  }

  /** Splitting yields one more part than there are separators. */
  lemma {:induction false} SplitCount(s: string, sep: char)
    ensures |Split(s, sep)| == Count(s, sep) + 1
    decreases |s|
  {
    if s != [] {
      SplitCount(s[1..], sep);
    }
  }

  /** No part contains the separator, and joining the parts gives back the input. */
  lemma {:induction false} SplitJoin(s: string, sep: char)
    ensures forall i :: 0 <= i < |Split(s, sep)| ==> sep !in Split(s, sep)[i]
    ensures Join(Split(s, sep), sep) == s
    decreases |s|
  {
    if s != [] {
      SplitJoin(s[1..], sep);
      var rest := Split(s[1..], sep);
      if s[0] == sep {
        assert Join([""] + rest, sep) == "" + [sep] + Join(rest, sep);
        assert [sep] + s[1..] == s;
      } else {
        var parts := [[s[0]] + rest[0]] + rest[1..];
        assert parts == Split(s, sep);
        if |rest| == 1 {
          assert Join(parts, sep) == [s[0]] + rest[0];
        } else {
          assert parts[1..] == rest[1..];
          assert Join(parts, sep) == [s[0]] + rest[0] + [sep] + Join(rest[1..], sep);
          assert Join(rest, sep) == rest[0] + [sep] + Join(rest[1..], sep);
        }
        assert [s[0]] + s[1..] == s;
      }
    }
  }

  /** A string without the separator splits into itself alone. */
  lemma {:induction false} SplitWithoutSeparator(s: string, sep: char)
    requires sep !in s
    ensures Split(s, sep) == [s]
    decreases |s|
  {
    if s != [] {
      assert sep !in s[1..];
      SplitWithoutSeparator(s[1..], sep);
      assert [s[0]] + s[1..] == s;
    }
  }

  /** `(a + sep + b).split(sep)` is `[a, b]` when neither half holds the separator. */
  lemma {:induction false} SplitTwo(a: string, b: string, sep: char)
    requires sep !in a && sep !in b
    ensures Split(a + [sep] + b, sep) == [a, b]
    decreases |a|
  {
    var s := a + [sep] + b;
    if a == [] {
      assert s[1..] == b;
      SplitWithoutSeparator(b, sep);
    } else {
      assert s[1..] == a[1..] + [sep] + b;
      assert sep !in a[1..];
      SplitTwo(a[1..], b, sep);
      assert [a[0]] + a[1..] == a;
    }
  }

  /** `s.replace(/^p/, "")` for a literal prefix `p`. */
  function StripPrefix(s: string, p: string): (r: string)
    ensures p <= s ==> s == p + r
    ensures !(p <= s) ==> r == s
  {
    if p <= s then s[|p|..] else s
  }

  /** `s.replace(/^p$/, rep)` for a literal `p`: only the whole string is replaced. */
  function ReplaceWhole(s: string, p: string, rep: string): (r: string)
    ensures s == p ==> r == rep
    ensures s != p ==> r == s
  {
    if s == p then rep else s
  }

  /** `p` occurs in `s` starting at index `i`. */
  predicate OccursAt(s: string, p: string, i: nat) {
    i + |p| <= |s| && s[i..i + |p|] == p
  }

  /** `s.replace(/p/, rep)` for a literal, non-empty `p`: the first occurrence only. */
  function ReplaceFirst(s: string, p: string, rep: string): string
    requires |p| > 0
    decreases |s|
  {
    if |s| < |p| then s
    else if s[..|p|] == p then rep + s[|p|..]
    else [s[0]] + ReplaceFirst(s[1..], p, rep)
  }

  /** A character in neither the string nor the replacement stays out of it. */
  lemma {:induction false} ReplaceFirstKeepsOut(s: string, p: string, rep: string, c: char)
    requires |p| > 0 && c !in s && c !in rep
    ensures c !in ReplaceFirst(s, p, rep)
    decreases |s|
  {
    if |s| >= |p| && s[..|p|] != p {
      ReplaceFirstKeepsOut(s[1..], p, rep, c);
    }
  }

  /** An occurrence in the tail is an occurrence one place later in the string. */
  lemma OccursInTail(s: string, p: string, j: nat)
    requires |s| > 0
    ensures OccursAt(s[1..], p, j) <==> OccursAt(s, p, j + 1)
  {
    if j + 1 + |p| <= |s| {
      assert s[1..][j..j + |p|] == s[j + 1..j + 1 + |p|];
    }
  }

  /** With its first occurrence at `i`, exactly that occurrence is replaced. */
  lemma {:induction false} ReplaceFirstAt(s: string, p: string, rep: string, i: nat)
    requires |p| > 0 && OccursAt(s, p, i)
    requires forall j :: 0 <= j < i ==> !OccursAt(s, p, j)
    ensures ReplaceFirst(s, p, rep) == s[..i] + rep + s[i + |p|..]
    decreases i
  {
    if i > 0 {
      assert !OccursAt(s, p, 0);
      var t := s[1..];
      assert ReplaceFirst(s, p, rep) == [s[0]] + ReplaceFirst(t, p, rep);
      OccursInTail(s, p, i - 1);
      forall j | 0 <= j < i - 1
        ensures !OccursAt(t, p, j)
      {
        OccursInTail(s, p, j);
      }
      ReplaceFirstAt(t, p, rep, i - 1);
      assert [s[0]] + t[..i - 1] == s[..i];
      assert t[i - 1 + |p|..] == s[i + |p|..];
    }
  }

  /** Without any occurrence, nothing is replaced. */
  lemma {:induction false} ReplaceFirstAbsent(s: string, p: string, rep: string)
    requires |p| > 0
    requires forall j :: 0 <= j <= |s| ==> !OccursAt(s, p, j)
    ensures ReplaceFirst(s, p, rep) == s
    decreases |s|
  {
    if |s| >= |p| {
      assert !OccursAt(s, p, 0);
      var t := s[1..];
      forall j | 0 <= j <= |t|
        ensures !OccursAt(t, p, j)
      {
        OccursInTail(s, p, j);
      }
      ReplaceFirstAbsent(t, p, rep);
      assert [s[0]] + t == s;
    }
  }
}
