/** The pieces of Rust's `str`/`String` API the program leans on:
    `split` on one separator, `replace`, and integer `to_string`, each with
    the partner it is checked against (`Join`, a no-match law, `ParseInt`). */
module Strings {
  import opened Common

  // ---------------------------------------------------------------------
  // split / join
  // ---------------------------------------------------------------------

  /** Number of occurrences of `c` in `s`. */
  function CountChar(s: string, c: char): nat
  {
    if |s| == 0 then 0 else (if s[0] == c then 1 else 0) + CountChar(s[1..], c)
  }

  /** `s.split(sep)` collected into a vector: every separator ends a piece,
      empty pieces are kept, so k separators always give k + 1 pieces and
      no piece contains the separator. */
  function Split(s: string, sep: char): (parts: seq<string>)
    ensures |parts| == CountChar(s, sep) + 1
    ensures forall i :: 0 <= i < |parts| ==> sep !in parts[i]
    decreases |s|
  {
    if |s| == 0 then [""]
    else
      var rest := Split(s[1..], sep);
      if s[0] == sep then [""] + rest
      else [[s[0]] + rest[0]] + rest[1..]
  }

  /** The pieces glued back together with `sep` between neighbours. */
  function Join(parts: seq<string>, sep: char): string
    requires |parts| >= 1
  {
    if |parts| == 1 then parts[0] else parts[0] + [sep] + Join(parts[1..], sep)
  }

  /** Splitting loses nothing: joining the pieces restores the input. */
  lemma {:induction false} JoinSplit(s: string, sep: char)
    ensures Join(Split(s, sep), sep) == s
    decreases |s|
  {
    if |s| > 0 {
      var rest := Split(s[1..], sep);
      JoinSplit(s[1..], sep);
      if s[0] == sep {
        assert Join(Split(s, sep), sep) == "" + [sep] + Join(rest, sep);
      } else if |rest| == 1 {
        assert Join(Split(s, sep), sep) == [s[0]] + rest[0];
      } else {
        assert Join(Split(s, sep), sep) == ([s[0]] + rest[0]) + [sep] + Join(rest[1..], sep);
        assert Join(rest, sep) == rest[0] + [sep] + Join(rest[1..], sep);
      }
      assert [s[0]] + s[1..] == s;
    }
  }

  /** A string without the separator splits into itself alone. */
  lemma {:induction false} SplitNoSeparator(a: string, sep: char)
    requires sep !in a
    ensures Split(a, sep) == [a]
    decreases |a|
  {
    if |a| > 0 {
      SplitNoSeparator(a[1..], sep);
      assert [a[0]] + a[1..] == a;
    }
  }

  /** The first separator ends the first piece. */
  lemma {:induction false} SplitAtSeparator(a: string, sep: char, b: string)
    requires sep !in a
    ensures Split(a + [sep] + b, sep) == [a] + Split(b, sep)
    decreases |a|
  {
    var s := a + [sep] + b;
    if |a| == 0 {
      assert s[1..] == b;
    } else {
      assert s[1..] == a[1..] + [sep] + b;
      SplitAtSeparator(a[1..], sep, b);
      assert [a[0]] + a[1..] == a;
    }
  }

  /** Joining separator-free pieces and splitting again gives the pieces. */
  lemma {:induction false} SplitJoin(parts: seq<string>, sep: char)
    requires |parts| >= 1
    requires forall i :: 0 <= i < |parts| ==> sep !in parts[i]
    ensures Split(Join(parts, sep), sep) == parts
    decreases |parts|
  {
    if |parts| == 1 {
      SplitNoSeparator(parts[0], sep);
    } else {
      SplitJoin(parts[1..], sep);
      SplitAtSeparator(parts[0], sep, Join(parts[1..], sep));
      assert [parts[0]] + parts[1..] == parts;
    }
  }

  /** Whatever precedes the last separator, the text after it is the last
      piece. */
  lemma {:induction false} SplitLastPiece(a: string, sep: char, b: string)
    requires sep !in b
    ensures var parts := Split(a + [sep] + b, sep);
      |parts| >= 2 && parts[|parts| - 1] == b
    decreases |a|
  {
    var s := a + [sep] + b;
    if |a| == 0 {
      assert s[1..] == b;
      SplitNoSeparator(b, sep);
    } else {
      assert s[1..] == a[1..] + [sep] + b;
      SplitLastPiece(a[1..], sep, b);
    }
  }

  // ---------------------------------------------------------------------
  // replace
  // ---------------------------------------------------------------------

  /** Regrouping a concatenation, stated over variables so that the solver
      does not unfold the string constants it is applied to. */
  lemma Regroup(a: string, b: string, c: string, d: string)
    ensures a + b + c + d == a + (b + c + d)
  { }

  /** `s.starts_with(pat)`. */
  predicate StartsWith(s: string, pat: string)
  {
    |pat| <= |s| && s[..|pat|] == pat
  }

  /** `s.replace(pat, rep)`: occurrences of `pat` are replaced left to
      right without overlapping, and the inserted text is never scanned
      again. An empty pattern matches before every character and at the
      end, as in Rust. */
  function Replace(s: string, pat: string, rep: string): string
    decreases |s|
  {
    if |pat| == 0 then
      (if |s| == 0 then rep else rep + [s[0]] + Replace(s[1..], pat, rep))
    else if |s| == 0 then s
    else if StartsWith(s, pat) then rep + Replace(s[|pat|..], pat, rep)
    else [s[0]] + Replace(s[1..], pat, rep)
  }

  /** Text in which the pattern cannot even begin is left alone. */
  lemma {:induction false} ReplaceAbsent(s: string, pat: string, rep: string)
    requires |pat| > 0 && pat[0] !in s
    ensures Replace(s, pat, rep) == s
    decreases |s|
  {
    if |s| > 0 {
      assert !StartsWith(s, pat) by {
        if |pat| <= |s| { assert s[..|pat|][0] == s[0]; }
      }
      ReplaceAbsent(s[1..], pat, rep);
      assert [s[0]] + s[1..] == s;
    }
  }

  /** A prefix in which the pattern cannot begin passes through unchanged. */
  lemma {:induction false} ReplaceAfterPrefix(a: string, b: string, pat: string, rep: string)
    requires |pat| > 0 && pat[0] !in a
    ensures Replace(a + b, pat, rep) == a + Replace(b, pat, rep)
    decreases |a|
  {
    if |a| > 0 {
      var s := a + b;
      assert !StartsWith(s, pat) by {
        if |pat| <= |s| { assert s[..|pat|][0] == a[0]; }
      }
      assert s[1..] == a[1..] + b;
      assert Replace(s, pat, rep) == [a[0]] + Replace(a[1..] + b, pat, rep);
      ReplaceAfterPrefix(a[1..], b, pat, rep);
      assert [a[0]] + a[1..] == a;
    } else {
      assert a + b == b;
    }
  }

  /** A placeholder preceded by text in which the pattern cannot begin, and
      followed by text the replacement leaves alone, is replaced exactly
      once. */
  lemma ReplaceOnce(pre: string, pat: string, post: string, rep: string)
    requires |pat| > 0 && pat[0] !in pre && Replace(post, pat, rep) == post
    ensures Replace(pre + pat + post, pat, rep) == pre + rep + post
  {
    var s := pat + post;
    assert StartsWith(s, pat);
    assert s[|pat|..] == post;
    assert Replace(s, pat, rep) == rep + post;
    ReplaceAfterPrefix(pre, s, pat, rep);
    assert pre + pat + post == pre + s;
  }

  // ---------------------------------------------------------------------
  // integer to_string and its inverse
  // ---------------------------------------------------------------------

  predicate IsDigit(c: char)
  {
    '0' <= c <= '9'
  }

  predicate AllDigits(s: string)
  {
    forall i :: 0 <= i < |s| ==> IsDigit(s[i])
  }

  function DigitChar(d: int): (c: char)
    requires 0 <= d < 10
    ensures IsDigit(c)
  {
    (48 + d) as char
  }

  function DigitValue(c: char): int
    requires IsDigit(c)
  {
    c as int - 48
  }

  /** Decimal digits of `n`, most significant first, without leading zeros. */
  function NatToString(n: nat): (s: string)
    ensures |s| >= 1 && AllDigits(s)
    decreases n
  {
    if n < 10 then [DigitChar(n)] else NatToString(n / 10) + [DigitChar(n % 10)]
  }

  /** `i32::to_string`: a minus sign for negative numbers, then the digits.
      The text never holds anything but digits and a leading `-`. */
  function IntToString(n: int): (s: string)
    ensures |s| >= 1
    ensures forall i :: 0 <= i < |s| ==> IsDigit(s[i]) || (i == 0 && s[i] == '-')
  {
    if n < 0 then "-" + NatToString(-n) else NatToString(n)
  }

  /** Value of a string of decimal digits. */
  function ParseNat(s: string): nat
    requires AllDigits(s)
    decreases |s|
  {
    if |s| == 0 then 0 else 10 * ParseNat(s[..|s| - 1]) + DigitValue(s[|s| - 1])
  }

  /** Reads an optionally negative decimal integer; anything else is `None`. */
  function ParseInt(s: string): Option<int>
  {
    if |s| >= 2 && s[0] == '-' && AllDigits(s[1..]) then Some(-(ParseNat(s[1..]) as int))
    else if |s| >= 1 && AllDigits(s) then Some(ParseNat(s))
    else None
  }

  lemma {:induction false} ParseNatToString(n: nat)
    ensures ParseNat(NatToString(n)) == n
    decreases n
  {
    if n >= 10 {
      var s := NatToString(n);
      ParseNatToString(n / 10);
      assert s[..|s| - 1] == NatToString(n / 10);
      assert DigitValue(s[|s| - 1]) == n % 10;
    }
  }

  /** `to_string` is read back exactly, so it is injective. */
  lemma ParseIntToString(n: int)
    ensures ParseInt(IntToString(n)) == Some(n)
  {
    var s := IntToString(n);
    if n < 0 {
      assert s[1..] == NatToString(-n);
      ParseNatToString(-n);
    } else {
      ParseNatToString(n);
    }
  }

  lemma IntToStringInjective(a: int, b: int)
    ensures IntToString(a) == IntToString(b) ==> a == b
  {
    ParseIntToString(a);
    ParseIntToString(b);
  }
}
