/**
 The Python `str` operations the pipeline uses on compound names and report
 names: `strip()`, `capitalize()`, `split(",")`, `sep.join(...)` and `str(int)`.
 Case mapping and whitespace are modelled over ASCII.
 */
module Text {

  /** `str.isspace()` on an ASCII character: space, `\t \n \v \f \r`, and the separators 0x1C-0x1F. */
  predicate IsSpace(c: char)
  {
    var n := c as int;
    n == 32 || 9 <= n <= 13 || 28 <= n <= 31
  }

  /** `str.lstrip()`: the suffix of `s` after its leading whitespace. */
  function LStrip(s: string): (r: string)
    ensures |r| <= |s| && r == s[|s| - |r|..]
    ensures forall k :: 0 <= k < |s| - |r| ==> IsSpace(s[k])
    ensures r == [] || !IsSpace(r[0])
  {
    if |s| > 0 && IsSpace(s[0]) then LStrip(s[1..]) else s
  }

  /** `str.rstrip()`: the prefix of `s` before its trailing whitespace. */
  function RStrip(s: string): (r: string)
    ensures |r| <= |s| && r == s[..|r|]
    ensures forall k :: |r| <= k < |s| ==> IsSpace(s[k])
    ensures r == [] || !IsSpace(r[|r| - 1])
  {
    if |s| > 0 && IsSpace(s[|s| - 1]) then RStrip(s[..|s| - 1]) else s
  }

  /** `str.strip()`. */
  function Strip(s: string): (r: string)
    ensures |r| <= |s|
    ensures r == [] || (!IsSpace(r[0]) && !IsSpace(r[|r| - 1]))
  {
    RStrip(LStrip(s))
  }

  /**
   `strip()` removes exactly the surrounding whitespace: its result is a slice
   `s[i..j]` of the input with only whitespace outside it and no whitespace at
   either end.
   */
  lemma StripSlice(s: string)
    ensures exists i, j ::
              && 0 <= i <= j <= |s| && Strip(s) == s[i..j]
              && (forall k :: 0 <= k < i ==> IsSpace(s[k]))
              && (forall k :: j <= k < |s| ==> IsSpace(s[k]))
    ensures Strip(s) == [] || (!IsSpace(Strip(s)[0]) && !IsSpace(Strip(s)[|Strip(s)| - 1]))
  {
    var i, j := StripBounds(s);
  }

  /** The bounds of the slice that `strip()` keeps. */
  lemma StripBounds(s: string) returns (i: nat, j: nat)
    ensures i <= j <= |s| && Strip(s) == s[i..j]
    ensures forall k :: 0 <= k < i ==> IsSpace(s[k])
    ensures forall k :: j <= k < |s| ==> IsSpace(s[k])
  {
    var l := LStrip(s);
    i := |s| - |l|;
    j := i + |RStrip(l)|;
    forall k | j <= k < |s| ensures IsSpace(s[k]) {
      assert s[k] == l[k - i];
    }
  }

  /** `strip()` leaves a string alone when neither end is whitespace. */
  lemma StripUnchanged(s: string)
    requires s == [] || (!IsSpace(s[0]) && !IsSpace(s[|s| - 1]))
    ensures Strip(s) == s
  {
  }

  /** A string strips to nothing exactly when it is all whitespace. */
  lemma StripEmpty(s: string)
    ensures Strip(s) == [] <==> forall k :: 0 <= k < |s| ==> IsSpace(s[k])
  {
  }

  /** ASCII `upper()` of one character. */
  function Upper(c: char): char
  {
    if 'a' <= c <= 'z' then (c as int - 32) as char else c
  }

  /** ASCII `lower()` of one character. */
  function Lower(c: char): char
  {
    if 'A' <= c <= 'Z' then (c as int + 32) as char else c
  }

  function LowerAll(s: string): (r: string)
    ensures |r| == |s|
    ensures forall k :: 0 <= k < |s| ==> r[k] == Lower(s[k])
  {
    if |s| == 0 then [] else [Lower(s[0])] + LowerAll(s[1..])
  }

  /** `str.capitalize()`: the first character upper-cased, all others lower-cased (not title case). */
  function Capitalize(s: string): (r: string)
    ensures |r| == |s|
    ensures |s| > 0 ==> r[0] == Upper(s[0])
    ensures forall k :: 1 <= k < |s| ==> r[k] == Lower(s[k])
  {
    if |s| == 0 then [] else [Upper(s[0])] + LowerAll(s[1..])
  }

  /**
   Capitalizing keeps the length, and its result depends only on the letters up
   to case: two strings that agree up to ASCII case capitalize alike.
   */
  lemma CapitalizeIgnoresCase(s: string, t: string)
    requires |s| == |t|
    requires forall k :: 0 <= k < |s| ==> Lower(s[k]) == Lower(t[k])
    ensures |Capitalize(s)| == |s|
    ensures Capitalize(s) == Capitalize(t)
  {
    if |s| > 0 {
      assert Upper(s[0]) == Upper(Lower(s[0]));
      assert Upper(t[0]) == Upper(Lower(t[0]));
      assert LowerAll(s[1..]) == LowerAll(t[1..]);
    }
  }

  /** Capitalizing twice is capitalizing once. */
  lemma CapitalizeIdempotent(s: string)
    ensures Capitalize(Capitalize(s)) == Capitalize(s)
  {
    var c := Capitalize(s);
    if |s| > 0 {
      assert c[0] == Upper(s[0]);
      assert c[1..] == LowerAll(s[1..]);
      assert LowerAll(c[1..]) == c[1..];
    }
  }

  /** Case mapping never turns whitespace into non-whitespace or back. */
  lemma CapitalizeKeepsSpaces(s: string)
    ensures |Capitalize(s)| == |s|
    ensures forall k :: 0 <= k < |s| ==> (IsSpace(Capitalize(s)[k]) <==> IsSpace(s[k]))
  {
    if |s| > 0 {
      forall k | 0 <= k < |s| ensures IsSpace(Capitalize(s)[k]) <==> IsSpace(s[k]) {
        if k > 0 {
          assert Capitalize(s)[k] == Lower(s[k]);
        }
      }
    }
  }

  /** Number of occurrences of `c` in `s`. */
  function CountChar(s: string, c: char): nat
  {
    if |s| == 0 then 0 else (if s[0] == c then 1 else 0) + CountChar(s[1..], c)
  }

  /** A character occurs zero times exactly when it is absent. */
  lemma {:induction false} CountCharZero(s: string, c: char)
    ensures CountChar(s, c) == 0 <==> c !in s
  {
    if |s| > 0 {
      CountCharZero(s[1..], c);
      assert s == [s[0]] + s[1..];
    }
  }

  /** `s.split(sep)` for a one-character separator: the pieces between separators, always at least one. */
  function Split(s: string, sep: char): (r: seq<string>)
    ensures |r| >= 1
    ensures forall k :: 0 <= k < |r| ==> sep !in r[k]
  {
    if |s| == 0 then
      [""]
    else
      var rest := Split(s[1..], sep);
      if s[0] == sep then [""] + rest
      else
        assert forall k :: 1 <= k < |rest| ==> ([[s[0]] + rest[0]] + rest[1..])[k] == rest[k];
        [[s[0]] + rest[0]] + rest[1..]
  }

  /** `sep.join(pieces)`. */
  function Join(pieces: seq<string>, sep: string): string
  {
    if |pieces| == 0 then ""
    else if |pieces| == 1 then pieces[0]
    else pieces[0] + sep + Join(pieces[1..], sep)
  }

  /** There is one more piece than there are separators. */
  lemma {:induction false} SplitCount(s: string, sep: char)
    ensures |Split(s, sep)| == CountChar(s, sep) + 1
  {
    if |s| > 0 {
      SplitCount(s[1..], sep);
    }
  }

  /** Joining the pieces with the separator gives back the input. */
  lemma {:induction false} JoinSplit(s: string, sep: char)
    ensures Join(Split(s, sep), [sep]) == s
  {
    if |s| > 0 {
      var rest := Split(s[1..], sep);
      JoinSplit(s[1..], sep);
      if s[0] == sep {
        assert ([""] + rest)[1..] == rest;
      } else {
        JoinPrepend(s[0], rest, [sep]);
      }
      assert s == [s[0]] + s[1..];
    }
  }

  /** Prefixing the first piece with `c` prefixes the join with `c`. */
  lemma JoinPrepend(c: char, pieces: seq<string>, sep: string)
    requires |pieces| >= 1
    ensures Join([[c] + pieces[0]] + pieces[1..], sep) == [c] + Join(pieces, sep)
  {
    var r := [[c] + pieces[0]] + pieces[1..];
    if |pieces| > 1 {
      assert r[1..] == pieces[1..];
    }
  }

  /** A string without the separator is a single piece. */
  lemma {:induction false} SplitNoSeparator(s: string, sep: char)
    requires sep !in s
    ensures Split(s, sep) == [s]
  {
    if |s| > 0 {
      assert sep !in s[1..];
      SplitNoSeparator(s[1..], sep);
      assert s == [s[0]] + s[1..];
    }
  }

  lemma {:induction false} SplitAfterPiece(a: string, sep: char, b: string)
    requires sep !in a
    ensures Split(a + [sep] + b, sep) == [a] + Split(b, sep)
  {
    var s := a + [sep] + b;
    if |a| == 0 {
      assert s[1..] == b;
    } else {
      assert s[1..] == a[1..] + [sep] + b;
      assert sep !in a[1..];
      SplitAfterPiece(a[1..], sep, b);
      assert a == [a[0]] + a[1..];
    }
  }

  /** Splitting a join of separator-free pieces gives back the pieces. */
  lemma {:induction false} SplitJoin(pieces: seq<string>, sep: char)
    requires |pieces| >= 1
    requires forall k :: 0 <= k < |pieces| ==> sep !in pieces[k]
    ensures Split(Join(pieces, [sep]), sep) == pieces
  {
    if |pieces| == 1 {
      SplitNoSeparator(pieces[0], sep);
    } else {
      SplitJoin(pieces[1..], sep);
      SplitAfterPiece(pieces[0], sep, Join(pieces[1..], [sep]));
      assert pieces == [pieces[0]] + pieces[1..];
    }
  }

  function DigitChar(d: nat): char
    requires d < 10
  {
    "0123456789"[d]
  }

  function DigitValue(c: char): int
  {
    c as int - '0' as int
  }

  predicate IsDigit(c: char)
  {
    '0' <= c <= '9'
  }

  /** The decimal digits of `n`, most significant first, without leading zeros. */
  function NatToString(n: nat): (r: string)
    ensures |r| >= 1
    ensures forall k :: 0 <= k < |r| ==> IsDigit(r[k])
    ensures r[0] != '0' || n == 0
  {
    if n < 10 then [DigitChar(n)] else NatToString(n / 10) + [DigitChar(n % 10)]
  }

  /** The value of a string of decimal digits. */
  function DigitsValue(s: string): int
  {
    if |s| == 0 then 0 else 10 * DigitsValue(s[..|s| - 1]) + DigitValue(s[|s| - 1])
  }

  /** `str(i)` for a Python `int`. */
  function IntToString(i: int): (r: string)
  {
    if i < 0 then "-" + NatToString(-i) else NatToString(i)
  }

  /** Reading the digits of `n` back gives `n`. */
  lemma {:induction false} NatToStringValue(n: nat)
    ensures DigitsValue(NatToString(n)) == n
  {
    var r := NatToString(n);
    if n >= 10 {
      NatToStringValue(n / 10);
      assert r[..|r| - 1] == NatToString(n / 10);
    }
  }

  /** Distinct integers print differently. */
  lemma IntToStringInjective(a: int, b: int)
    requires IntToString(a) == IntToString(b)
    ensures a == b
  {
    SignMark(a);
    SignMark(b);
    var x := IntToString(a);
    if a < 0 {
      assert x[1..] == NatToString(-a);
      assert x[1..] == NatToString(-b);
      NatToStringInjective(-a, -b);
    } else {
      assert x == NatToString(a) == NatToString(b);
      NatToStringInjective(a, b);
    }
  }

  /** Distinct naturals print differently. */
  lemma NatToStringInjective(a: nat, b: nat)
    requires NatToString(a) == NatToString(b)
    ensures a == b
  {
    NatToStringValue(a);
    NatToStringValue(b);
  }

  /** The printed form starts with `-` exactly for negative numbers. */
  lemma SignMark(i: int)
    ensures |IntToString(i)| >= 1
    ensures IntToString(i)[0] == '-' <==> i < 0
  {
    if i >= 0 {
      assert IsDigit(NatToString(i)[0]);
    }
  }
}
