/** The string operations of Python the application relies on: `str.strip`,
    `str.split` on one character, `str.join`, `str.isdigit`, `int` of a digit
    string and `str` of an integer. */
module Text {
  import Seqs

  /** The characters `str.isspace` accepts, which `str.strip()` removes. */
  predicate IsSpace(c: char)
  {
    || c == ' ' || ('\t' <= c <= '\r') || ('\U{1C}' <= c <= '\U{1F}')
    || c == '\U{85}' || c == '\U{A0}' || c == '\U{1680}' || ('\U{2000}' <= c <= '\U{200A}')
    || c == '\U{2028}' || c == '\U{2029}' || c == '\U{202F}' || c == '\U{205F}' || c == '\U{3000}'
  }

  predicate AllSpace(s: string)
  {
    forall i :: 0 <= i < |s| ==> IsSpace(s[i])
  }

  /** The first index at or after `i` that does not hold whitespace, or
      `|s|` when there is none. */
  function SkipSpace(s: string, i: nat): (n: nat)
    requires i <= |s|
    ensures i <= n <= |s|
    decreases |s| - i
  {
    if i < |s| && IsSpace(s[i]) then SkipSpace(s, i + 1) else i
  }

  /** The index just after the last character before `j` that is not
      whitespace, or 0 when there is none. */
  function BackSpace(s: string, j: nat): (n: nat)
    requires j <= |s|
    ensures n <= j
    decreases j
  {
    if j > 0 && IsSpace(s[j - 1]) then BackSpace(s, j - 1) else j
  }

  lemma {:induction false} SkipSpaceSpec(s: string, i: nat)
    requires i <= |s|
    ensures forall k :: i <= k < SkipSpace(s, i) ==> IsSpace(s[k])
    ensures SkipSpace(s, i) < |s| ==> !IsSpace(s[SkipSpace(s, i)])
    decreases |s| - i
  {
    if i < |s| && IsSpace(s[i]) {
      SkipSpaceSpec(s, i + 1);
    }
  }

  lemma {:induction false} BackSpaceSpec(s: string, j: nat)
    requires j <= |s|
    ensures forall k :: BackSpace(s, j) <= k < j ==> IsSpace(s[k])
    ensures BackSpace(s, j) > 0 ==> !IsSpace(s[BackSpace(s, j) - 1])
    decreases j
  {
    if j > 0 && IsSpace(s[j - 1]) {
      BackSpaceSpec(s, j - 1);
    }
  }

  /** The number of whitespace characters `s` starts with. */
  function LeadingSpace(s: string): (n: nat)
    ensures n <= |s|
  {
    SkipSpace(s, 0)
  }

  /** The leading count covers whitespace only and stops at the first other
      character. */
  lemma LeadingSpaceSpec(s: string)
    ensures forall i :: 0 <= i < LeadingSpace(s) ==> IsSpace(s[i])
    ensures LeadingSpace(s) < |s| ==> !IsSpace(s[LeadingSpace(s)])
  {
    SkipSpaceSpec(s, 0);
  }

  /** The number of whitespace characters `s` ends with. */
  function TrailingSpace(s: string): (n: nat)
    ensures n <= |s|
  {
    |s| - BackSpace(s, |s|)
  }

  /** The trailing count covers whitespace only and stops at the last other
      character. */
  lemma TrailingSpaceSpec(s: string)
    ensures forall i :: |s| - TrailingSpace(s) <= i < |s| ==> IsSpace(s[i])
    ensures TrailingSpace(s) < |s| ==> !IsSpace(s[|s| - TrailingSpace(s) - 1])
  {
    BackSpaceSpec(s, |s|);
  }

  /** `s.strip()`: what lies between the leading and the trailing
      whitespace; empty when `s` is whitespace only. */
  function Trim(s: string): (r: string)
    ensures |r| <= |s|
    ensures r == [] || (!IsSpace(r[0]) && !IsSpace(r[|r| - 1]))
    ensures r == [] <==> AllSpace(s)
  {
    LeadingSpaceSpec(s);
    TrailingSpaceSpec(s);
    var i := LeadingSpace(s);
    if i == |s| then []
    else
      s[i..|s| - TrailingSpace(s)]
  }

  /** Apart from the whitespace-only case, `strip()` cuts at the two
      whitespace counts. */
  lemma TrimCuts(s: string)
    requires !AllSpace(s)
    ensures LeadingSpace(s) < |s| - TrailingSpace(s)
    ensures Trim(s) == s[LeadingSpace(s)..|s| - TrailingSpace(s)]
  {
    LeadingSpaceSpec(s);
    TrailingSpaceSpec(s);
    var j :| 0 <= j < |s| && !IsSpace(s[j]);
    assert LeadingSpace(s) <= j;
  }

  /** `strip()` removes whitespace only, and only at the two ends: apart
      from the whitespace-only case, what goes before the result is all
      whitespace, what comes after it is all whitespace, and neither cut
      reaches into the first or the last character that is not whitespace. */
  lemma TrimIsInfix(s: string)
    requires !AllSpace(s)
    ensures var l, t := LeadingSpace(s), TrailingSpace(s);
      && l + |Trim(s)| + t == |s|
      && l < |s| - t
      && AllSpace(s[..l]) && AllSpace(s[|s| - t..])
      && !IsSpace(s[l]) && !IsSpace(s[|s| - t - 1])
      && Trim(s) == s[l..|s| - t]
  {
    TrimCuts(s);
    LeadingSpaceSpec(s);
    TrailingSpaceSpec(s);
    var l, t := LeadingSpace(s), TrailingSpace(s);
    assert forall i :: 0 <= i < l ==> s[..l][i] == s[i];
    assert forall i :: |s| - t <= i < |s| ==> s[|s| - t..][i - (|s| - t)] == s[i];
  }

  /** Every string is whitespace, then its `strip()`, then whitespace. */
  lemma TrimSurround(s: string)
    ensures exists a, b :: s == a + Trim(s) + b && AllSpace(a) && AllSpace(b)
  {
    var a, b: string;
    if AllSpace(s) {
      a, b := s, [];
    } else {
      TrimIsInfix(s);
      a, b := s[..LeadingSpace(s)], s[|s| - TrailingSpace(s)..];
    }
    assert s == a + Trim(s) + b && AllSpace(a) && AllSpace(b);
  }

  /** `str.isdigit` restricted to ASCII: non-empty and every character in
      '0'..'9'. */
  predicate IsDigit(c: char)
  {
    '0' <= c <= '9'
  }

  predicate IsDigits(s: string)
  {
    |s| > 0 && forall i :: 0 <= i < |s| ==> IsDigit(s[i])
  }

  function DigitValue(c: char): (d: nat)
    requires IsDigit(c)
    ensures d < 10
  {
    (c as int) - ('0' as int)
  }

  function DigitChar(d: nat): (c: char)
    requires d < 10
    ensures IsDigit(c) && DigitValue(c) == d
  {
    (('0' as int) + d) as char
  }

  /** `int(s)` for a string of decimal digits (leading zeros allowed, as in
      Python). */
  function DigitsValue(s: string): nat
    requires forall i :: 0 <= i < |s| ==> IsDigit(s[i])
    decreases |s|
  {
    if |s| == 0 then 0
    else DigitsValue(s[..|s| - 1]) * 10 + DigitValue(s[|s| - 1])
  }

  /** `str(n)` for a non-negative integer: decimal digits, no leading zero. */
  function NatToString(n: nat): (s: string)
    ensures IsDigits(s)
    ensures |s| == 1 || s[0] != '0'
    decreases n
  {
    if n < 10 then [DigitChar(n)] else NatToString(n / 10) + [DigitChar(n % 10)]
  }

  /** `str(n)` for any integer. */
  function IntToString(n: int): string
  {
    if n < 0 then "-" + NatToString(-n) else NatToString(n)
  }

  /** `s.count(c)`. */
  function Occurrences(s: string, c: char): nat
    decreases |s|
  {
    if |s| == 0 then 0 else (if s[0] == c then 1 else 0) + Occurrences(s[1..], c)
  }

  /** `s.split(c)`: the pieces between occurrences of `c`. */
  function Split(s: string, c: char): (r: seq<string>)
    ensures |r| == Occurrences(s, c) + 1
    ensures forall k :: 0 <= k < |r| ==> c !in r[k]
    decreases |s|
  {
    if |s| == 0 then [""]
    else
      var rest := Split(s[1..], c);
      assert s == [s[0]] + s[1..];
      if s[0] == c then [""] + rest else [[s[0]] + rest[0]] + rest[1..]
  }

  /** `sep.join(ps)`. */
  function Join(ps: seq<string>, sep: string): string
    decreases |ps|
  {
    if |ps| == 0 then ""
    else if |ps| == 1 then ps[0]
    else ps[0] + sep + Join(ps[1..], sep)
  }

  /** `int(str(n)) == n`. */
  lemma {:induction false} DigitsRoundTrip(n: nat)
    ensures DigitsValue(NatToString(n)) == n
    decreases n
  {
    var s := NatToString(n);
    if n >= 10 {
      DigitsRoundTrip(n / 10);
      assert s[..|s| - 1] == NatToString(n / 10);
    }
  }

  /** A string without whitespace at either end is its own `strip()`. */
  lemma TrimUnchanged(s: string)
    requires s == [] || (!IsSpace(s[0]) && !IsSpace(s[|s| - 1]))
    ensures Trim(s) == s
  {
  }

  /** The trailing whitespace count is the only count with its two
      properties. */
  lemma TrailingSpaceUnique(s: string, n: nat)
    requires n <= |s|
    requires forall i :: |s| - n <= i < |s| ==> IsSpace(s[i])
    requires n < |s| ==> !IsSpace(s[|s| - n - 1])
    ensures n == TrailingSpace(s)
  {
    TrailingSpaceSpec(s);
  }

  /** A leading whitespace character adds one to the leading count. */
  lemma LeadingSpaceCons(x: char, s: string)
    requires IsSpace(x)
    ensures LeadingSpace([x] + s) == 1 + LeadingSpace(s)
  {
    SkipSpaceShift(x, s, 0);
  }

  /** Skipping whitespace in `[x] + s` from `i + 1` is skipping it in `s`
      from `i`, one position later. */
  lemma {:induction false} SkipSpaceShift(x: char, s: string, i: nat)
    requires IsSpace(x) && i <= |s|
    ensures SkipSpace([x] + s, i + 1) == 1 + SkipSpace(s, i)
    ensures SkipSpace([x] + s, 0) == SkipSpace([x] + s, 1)
    decreases |s| - i
  {
    var t := [x] + s;
    assert t[0] == x;
    if i < |s| {
      assert t[i + 1] == s[i];
      if IsSpace(s[i]) {
        SkipSpaceShift(x, s, i + 1);
      }
    }
  }

  /** A leading character leaves the trailing count of a string that is not
      whitespace only unchanged. */
  lemma TrailingSpaceCons(x: char, s: string)
    requires !AllSpace(s)
    ensures TrailingSpace([x] + s) == TrailingSpace(s)
  {
    var t := [x] + s;
    var n := TrailingSpace(s);
    TrailingSpaceSpec(s);
    var j :| 0 <= j < |s| && !IsSpace(s[j]);
    assert n < |s|;
    assert t[|t| - n - 1] == s[|s| - n - 1];
    forall i | |t| - n <= i < |t|
      ensures IsSpace(t[i])
    {
      assert t[i] == s[i - 1];
    }
    TrailingSpaceUnique(t, n);
  }

  /** `strip()` ignores one leading whitespace character. */
  lemma TrimSkipsSpace(x: char, s: string)
    requires IsSpace(x)
    ensures Trim([x] + s) == Trim(s)
  {
    var t := [x] + s;
    if AllSpace(s) {
      assert AllSpace(t) by {
        forall i | 0 <= i < |t|
          ensures IsSpace(t[i])
        {
          if i > 0 {
            assert t[i] == s[i - 1];
          }
        }
      }
    } else {
      var j :| 0 <= j < |s| && !IsSpace(s[j]);
      assert t[j + 1] == s[j];
      var n := TrailingSpace(s);
      var m := LeadingSpace(s);
      TrimCuts(s);
      TrimCuts(t);
      LeadingSpaceCons(x, s);
      TrailingSpaceCons(x, s);
      assert t[1 + m..|t| - n] == s[m..|s| - n];
    }
  }

  /** `strip()` is idempotent. */
  lemma TrimIdempotent(s: string)
    ensures Trim(Trim(s)) == Trim(s)
  {
    TrimUnchanged(Trim(s));
  }

  /** Splitting a string that lacks the separator gives the string back. */
  lemma {:induction false} SplitWithout(s: string, c: char)
    requires c !in s
    ensures Split(s, c) == [s]
    decreases |s|
  {
    if |s| > 0 {
      SplitWithout(s[1..], c);
      assert [s[0]] + s[1..] == s;
    }
  }

  /** Splitting at one occurrence of the separator splits the two sides
      independently. */
  lemma {:induction false} SplitConcat(a: string, c: char, b: string)
    ensures Split(a + [c] + b, c) == Split(a, c) + Split(b, c)
    decreases |a|
  {
    var s := a + [c] + b;
    if |a| == 0 {
      assert s[1..] == b;
    } else {
      assert s[0] == a[0];
      assert s[1..] == a[1..] + [c] + b;
      SplitConcat(a[1..], c, b);
    }
  }

  /** A character other than the separator joins the first piece. */
  lemma SplitPrepend(x: char, t: string, c: char)
    requires x != c
    ensures Split([x] + t, c) == [[x] + Split(t, c)[0]] + Split(t, c)[1..]
  {
    assert ([x] + t)[1..] == t;
  }

  /** Extending the first piece extends the join by the same prefix. */
  lemma JoinExtendFirst(a: string, ps: seq<string>, sep: string)
    requires |ps| >= 1
    ensures Join([a + ps[0]] + ps[1..], sep) == a + Join(ps, sep)
  {
    var q := [a + ps[0]] + ps[1..];
    assert q[0] == a + ps[0];
    assert q[1..] == ps[1..];
    if |ps| >= 2 {
      assert Join(q, sep) == (a + ps[0]) + sep + Join(ps[1..], sep);
      assert Join(ps, sep) == ps[0] + sep + Join(ps[1..], sep);
    }
  }

  /** An empty first piece puts the separator first. */
  lemma JoinEmptyFirst(ps: seq<string>, sep: string)
    requires |ps| >= 1
    ensures Join([""] + ps, sep) == sep + Join(ps, sep)
  {
    var q := [""] + ps;
    assert q[0] == "";
    assert q[1..] == ps;
  }

  /** Joining the pieces with the separator restores the string. */
  lemma {:induction false} JoinSplit(s: string, c: char)
    ensures Join(Split(s, c), [c]) == s
    decreases |s|
  {
    if |s| > 0 {
      var rest := Split(s[1..], c);
      JoinSplit(s[1..], c);
      if s[0] == c {
        assert Split(s, c) == [""] + rest;
        JoinEmptyFirst(rest, [c]);
      } else {
        assert Split(s, c) == [[s[0]] + rest[0]] + rest[1..];
        JoinExtendFirst([s[0]], rest, [c]);
      }
      assert [s[0]] + s[1..] == s;
    }
  }

  /** Splitting a join of separator-free pieces restores the pieces. */
  lemma {:induction false} SplitJoin(ps: seq<string>, c: char)
    requires |ps| >= 1
    requires forall k :: 0 <= k < |ps| ==> c !in ps[k]
    ensures Split(Join(ps, [c]), c) == ps
    decreases |ps|
  {
    if |ps| == 1 {
      SplitWithout(ps[0], c);
    } else {
      SplitJoin(ps[1..], c);
      SplitConcat(ps[0], c, Join(ps[1..], [c]));
      SplitWithout(ps[0], c);
      assert [ps[0]] + ps[1..] == ps;
    }
  }

  /** A join starts with its first piece. */
  lemma {:induction false} JoinHead(ps: seq<string>, sep: string)
    requires |ps| >= 1
    ensures ps[0] <= Join(ps, sep)
  {
    if |ps| >= 2 {
      assert Join(ps, sep) == ps[0] + (sep + Join(ps[1..], sep));
    }
  }

  /** A character absent from every piece and from the separator is absent
      from the join. */
  lemma {:induction false} JoinWithout(ps: seq<string>, sep: string, c: char)
    requires c !in sep
    requires forall k :: 0 <= k < |ps| ==> c !in ps[k]
    ensures c !in Join(ps, sep)
    decreases |ps|
  {
    if |ps| >= 2 {
      JoinWithout(ps[1..], sep, c);
    }
  }

  /** The items of `str(xs)` for a list of integers: `", ".join(map(str, xs))`. */
  function ListItems(xs: seq<int>): string
  {
    Join(Seqs.Map(IntToString, xs), ", ")
  }

  /** `str(xs)` for a list of integers, as an f-string renders it. */
  function ListRepr(xs: seq<int>): string
  {
    "[" + ListItems(xs) + "]"
  }
}
