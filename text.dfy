/**
  * The Python string operations the two scripts rely on, over `string`
  * (a `seq<char>`): `str.split`, `str.replace`, the `in` operator, `int()` on a
  * run of digits, `re.findall(r"\d+", …)` and `PurePath.suffix`.
  *
  * Only ASCII digits count as digits here; Python's `\d` and `int()` would
  * also accept other Unicode decimal digits.
  */
module Text {
  import opened Wrappers

  predicate IsDigit(c: char) { '0' <= c <= '9' }

  predicate IsLower(c: char) { 'a' <= c <= 'z' }

  /** A non-empty run made of digits only (what `\d+` matches). */
  predicate IsDigits(t: string) {
    |t| > 0 && forall k :: 0 <= k < |t| ==> IsDigit(t[k])
  }

  /** `t` occurs in `s` at index `i`. */
  predicate StartsAt(s: string, i: int, t: string) {
    0 <= i && i + |t| <= |s| && s[i..i + |t|] == t
  }

  /**
    * Python's `t in s`. The empty string is in every string, a longer string
    * is in none, and one of the same length only when the two are equal.
    */
  predicate Contains(s: string, t: string)
    ensures |t| == 0 ==> Contains(s, t)
    ensures Contains(s, t) ==> |t| <= |s|
    ensures |t| == |s| ==> (Contains(s, t) <==> s == t)
  {
    assert |t| <= |s| ==> (StartsAt(s, 0, t) <==> s[..|t|] == t);
    exists i | 0 <= i <= |s| - |t| :: StartsAt(s, i, t)
  }

  /** The length of the longest run of digits that starts at index `j`. */
  function Run(s: string, j: nat): (n: nat)
    requires j <= |s|
    ensures j + n <= |s|
    ensures forall k :: j <= k < j + n ==> IsDigit(s[k])
    ensures j + n == |s| || !IsDigit(s[j + n])
    decreases |s| - j
  {
    if j < |s| && IsDigit(s[j]) then 1 + Run(s, j + 1) else 0
  }

  /** The two ensures of `Run` determine it. */
  lemma RunUnique(s: string, j: nat, n: nat)
    requires j + n <= |s|
    requires forall k :: j <= k < j + n ==> IsDigit(s[k])
    requires j + n == |s| || !IsDigit(s[j + n])
    ensures Run(s, j) == n
  {
  }

  // ---------------------------------------------------------------------
  // str.split(sep) and its inverse sep.join(parts)
  // ---------------------------------------------------------------------

  /** Python's `t.split(sep)` for a one-character separator. */
  function Split(t: string, sep: char): (parts: seq<string>)
    ensures |parts| >= 1
    ensures forall k :: 0 <= k < |parts| ==> sep !in parts[k]
  {
    if t == [] then [[]]
    else if t[0] == sep then [[]] + Split(t[1..], sep)
    else
      var rest := Split(t[1..], sep);
      [[t[0]] + rest[0]] + rest[1..]
  }

  /** Python's `sep.join(parts)`. */
  function Join(parts: seq<string>, sep: char): string
    requires |parts| >= 1
  {
    if |parts| == 1 then parts[0] else parts[0] + [sep] + Join(parts[1..], sep)
  }

  lemma {:induction false} JoinCons(c: char, parts: seq<string>, sep: char)
    requires |parts| >= 1
    ensures Join([[c] + parts[0]] + parts[1..], sep) == [c] + Join(parts, sep)
  {
    var ps := [[c] + parts[0]] + parts[1..];
    if |parts| > 1 {
      assert ps[1..] == parts[1..];
    }
  }

  /** Joining the pieces of a split gives back the string. */
  lemma {:induction false} SplitJoin(t: string, sep: char)
    ensures Join(Split(t, sep), sep) == t
  {
    if t == [] {
    } else if t[0] == sep {
      SplitJoin(t[1..], sep);
      var ps := [[]] + Split(t[1..], sep);
      assert ps[1..] == Split(t[1..], sep);
      assert t == [sep] + t[1..];
    } else {
      var rest := Split(t[1..], sep);
      SplitJoin(t[1..], sep);
      JoinCons(t[0], rest, sep);
      assert t == [t[0]] + t[1..];
    }
  }

  /** A string without the separator is its own only piece. */
  lemma {:induction false} SplitNoSep(a: string, sep: char)
    requires sep !in a
    ensures Split(a, sep) == [a]
  {
    if a != [] {
      assert sep !in a[1..] by {
        forall k | 0 <= k < |a[1..]| ensures a[1..][k] != sep {
          assert a[1..][k] == a[k + 1];
        }
      }
      SplitNoSep(a[1..], sep);
      assert a == [a[0]] + a[1..];
    }
  }

  /** The first separator ends the first piece. */
  lemma {:induction false} SplitCons(a: string, b: string, sep: char)
    requires sep !in a
    ensures Split(a + [sep] + b, sep) == [a] + Split(b, sep)
  {
    var t := a + [sep] + b;
    if a == [] {
      assert t == [sep] + b;
      assert t[1..] == b;
    } else {
      assert t[0] == a[0];
      assert t[1..] == a[1..] + [sep] + b;
      assert sep !in a[1..] by {
        forall k | 0 <= k < |a[1..]| ensures a[1..][k] != sep {
          assert a[1..][k] == a[k + 1];
        }
      }
      SplitCons(a[1..], b, sep);
      assert [a[0]] + a[1..] == a;
    }
  }

  /** Splitting a join of separator-free pieces gives back the pieces. */
  lemma {:induction false} JoinSplit(parts: seq<string>, sep: char)
    requires |parts| >= 1
    requires forall k :: 0 <= k < |parts| ==> sep !in parts[k]
    ensures Split(Join(parts, sep), sep) == parts
  {
    if |parts| == 1 {
      SplitNoSep(parts[0], sep);
    } else {
      JoinSplit(parts[1..], sep);
      SplitCons(parts[0], Join(parts[1..], sep), sep);
      assert [parts[0]] + parts[1..] == parts;
    }
  }

  // ---------------------------------------------------------------------
  // re.findall(r"\d+", s) and int()
  // ---------------------------------------------------------------------

  /** Python's `re.findall(r"\d+", s)`: the maximal runs of digits, left to right. */
  function DigitRuns(s: string): (runs: seq<string>)
    ensures forall k :: 0 <= k < |runs| ==> IsDigits(runs[k])
    decreases |s|
  {
    if s == [] then []
    else if !IsDigit(s[0]) then DigitRuns(s[1..])
    else
      var n := Run(s, 0);
      [s[..n]] + DigitRuns(s[n..])
  }

  /** A string with no digit has no run. */
  lemma {:induction false} DigitRunsNone(s: string)
    requires forall k :: 0 <= k < |s| ==> !IsDigit(s[k])
    ensures DigitRuns(s) == []
    decreases |s|
  {
    if s != [] {
      DigitRunsNone(s[1..]);
    }
  }

  /** A run of digits is a single run. */
  lemma DigitRunsOfDigits(t: string)
    requires IsDigits(t)
    ensures DigitRuns(t) == [t]
  {
    RunUnique(t, 0, |t|);
    assert t[..|t|] == t;
    assert t[|t|..] == [];
  }

  /** Runs never reach across a character that is not a digit. */
  lemma {:induction false} DigitRunsSplit(x: string, c: char, y: string)
    requires !IsDigit(c)
    ensures DigitRuns(x + [c] + y) == DigitRuns(x) + DigitRuns(y)
    decreases |x|
  {
    var s := x + [c] + y;
    if x == [] {
      assert s[1..] == y;
    } else if !IsDigit(x[0]) {
      assert s[1..] == x[1..] + [c] + y;
      DigitRunsSplit(x[1..], c, y);
    } else {
      var m := Run(x, 0);
      forall k | 0 <= k < m ensures IsDigit(s[k]) {
        assert s[k] == x[k];
      }
      assert m == |s| || !IsDigit(s[m]) by {
        if m < |x| { assert s[m] == x[m]; } else { assert s[m] == c; }
      }
      RunUnique(s, 0, m);
      assert s[..m] == x[..m];
      assert s[m..] == x[m..] + [c] + y;
      DigitRunsSplit(x[m..], c, y);
    }
  }

  function Pow10(n: nat): (p: nat)
    ensures p >= 1
  {
    if n == 0 then 1 else 10 * Pow10(n - 1)
  }

  /**
    * Python's `int(t)` for a string of ASCII digits: `n` digits give a number
    * below 10^n, and at least 10^(n-1) when the first digit is not 0.
    */
  function DecimalValue(t: string): (v: nat)
    requires forall k :: 0 <= k < |t| ==> IsDigit(t[k])
    ensures v < Pow10(|t|)
    ensures |t| > 0 && t[0] != '0' ==> Pow10(|t| - 1) <= v
  {
    if t == [] then 0
    else
      assert IsDigit(t[|t| - 1]);
      assert |t| > 1 ==> t[..|t| - 1][0] == t[0];
      10 * DecimalValue(t[..|t| - 1]) + (t[|t| - 1] as int - '0' as int)
  }

  /** The character of the digit `d`. */
  function DigitChar(d: nat): (c: char)
    requires d < 10
    ensures IsDigit(c) && c as int - '0' as int == d
  {
    ('0' as int + d) as char
  }

  /** Python's `str(n)`: the decimal digits of `n`, without a leading zero. */
  function DecimalString(n: nat): (t: string)
    ensures forall k :: 0 <= k < |t| ==> IsDigit(t[k])
    ensures |t| > 0 && (n > 0 ==> t[0] != '0')
  {
    if n < 10 then [DigitChar(n)] else DecimalString(n / 10) + [DigitChar(n % 10)]
  }

  /** `int(str(n)) == n`. */
  lemma {:induction false} DecimalRoundTrip(n: nat)
    ensures DecimalValue(DecimalString(n)) == n
  {
    if n >= 10 {
      var t := DecimalString(n);
      assert t[..|t| - 1] == DecimalString(n / 10);
      DecimalRoundTrip(n / 10);
    }
  }

  /** `str(int(t)) == t` for digits without a leading zero. */
  lemma {:induction false} DecimalStringRoundTrip(t: string)
    requires IsDigits(t) && (t[0] == '0' ==> t == "0")
    ensures DecimalString(DecimalValue(t)) == t
    decreases |t|
  {
    var v := DecimalValue(t);
    var d := t[|t| - 1] as int - '0' as int;
    if |t| == 1 {
      assert v == d;
      assert [DigitChar(d)] == t;
    } else {
      var init := t[..|t| - 1];
      assert init[0] == t[0] && IsDigits(init);
      assert Pow10(|t| - 1) >= 10;
      assert v / 10 == DecimalValue(init) && v % 10 == d;
      DecimalStringRoundTrip(init);
      assert t == init + [DigitChar(d)];
    }
  }

  /** `int()` ignores leading zeros, so "02" and "2" give the same number. */
  lemma {:induction false} DecimalValueLeadingZero(t: string)
    requires forall k :: 0 <= k < |t| ==> IsDigit(t[k])
    ensures DecimalValue("0" + t) == DecimalValue(t)
    decreases |t|
  {
    if t != [] {
      var z := "0" + t;
      assert z[..|z| - 1] == "0" + t[..|t| - 1];
      DecimalValueLeadingZero(t[..|t| - 1]);
    }
  }

  // ---------------------------------------------------------------------
  // str.replace(pat, rep)
  // ---------------------------------------------------------------------

  /**
    * Python's `s.replace(pat, rep)` for a non-empty `pat`: every occurrence,
    * found left to right and not overlapping, is replaced. A replacement no
    * longer than `pat` never lengthens the string, one no shorter never
    * shortens it.
    */
  function ReplaceAll(s: string, pat: string, rep: string): (r: string)
    requires |pat| > 0
    ensures |rep| <= |pat| ==> |r| <= |s|
    ensures |rep| >= |pat| ==> |r| >= |s|
    decreases |s|
  {
    if s == [] then []
    else if StartsAt(s, 0, pat) then rep + ReplaceAll(s[|pat|..], pat, rep)
    else [s[0]] + ReplaceAll(s[1..], pat, rep)
  }

  /** A string in which `pat` does not occur is left as it is. */
  lemma {:induction false} ReplaceAbsent(s: string, pat: string, rep: string)
    requires |pat| > 0
    requires !Contains(s, pat)
    ensures ReplaceAll(s, pat, rep) == s
    decreases |s|
  {
    if s != [] {
      assert !StartsAt(s, 0, pat);
      assert !Contains(s[1..], pat) by {
        forall i | 0 <= i <= |s[1..]| - |pat| ensures !StartsAt(s[1..], i, pat) {
          assert s[1..][i..i + |pat|] == s[i + 1..i + 1 + |pat|];
          assert !StartsAt(s, i + 1, pat);
        }
      }
      ReplaceAbsent(s[1..], pat, rep);
      assert s == [s[0]] + s[1..];
    }
  }

  /** A prefix that does not hold the first character of `pat` is copied unchanged. */
  lemma {:induction false} ReplaceSkip(x: string, y: string, pat: string, rep: string)
    requires |pat| > 0
    requires pat[0] !in x
    ensures ReplaceAll(x + y, pat, rep) == x + ReplaceAll(y, pat, rep)
    decreases |x|
  {
    if x != [] {
      var s := x + y;
      assert x[0] in x;
      assert s[0] != pat[0];
      assert !StartsAt(s, 0, pat) by {
        if |pat| <= |s| {
          assert s[0..|pat|][0] == s[0];
        }
      }
      assert s[1..] == x[1..] + y;
      assert pat[0] !in x[1..] by {
        forall k | 0 <= k < |x[1..]| ensures x[1..][k] != pat[0] {
          assert x[1..][k] == x[k + 1];
        }
      }
      ReplaceSkip(x[1..], y, pat, rep);
      calc {
        ReplaceAll(s, pat, rep);
        [s[0]] + ReplaceAll(s[1..], pat, rep);
        [x[0]] + (x[1..] + ReplaceAll(y, pat, rep));
        { assert x == [x[0]] + x[1..]; }
        x + ReplaceAll(y, pat, rep);
      }
    } else {
      assert x + y == y;
    }
  }

  /** An occurrence at the front is replaced and scanning resumes after it. */
  lemma ReplaceHit(y: string, pat: string, rep: string)
    requires |pat| > 0
    ensures ReplaceAll(pat + y, pat, rep) == rep + ReplaceAll(y, pat, rep)
  {
    var s := pat + y;
    assert s[..|pat|] == pat;
    assert s[|pat|..] == y;
  }

  /** A character that does not start an occurrence is copied. */
  lemma ReplaceMiss(c: char, y: string, pat: string, rep: string)
    requires |pat| > 0
    requires !StartsAt([c] + y, 0, pat)
    ensures ReplaceAll([c] + y, pat, rep) == [c] + ReplaceAll(y, pat, rep)
  {
    assert ([c] + y)[1..] == y;
  }

  /** Moving one character in front shifts every occurrence by one. */
  lemma StartsAtShift(c: char, t: string, i: nat, pat: string)
    ensures StartsAt([c] + t, i + 1, pat) <==> StartsAt(t, i, pat)
  {
    if i + |pat| <= |t| {
      assert ([c] + t)[i + 1..i + 1 + |pat|] == t[i..i + |pat|];
    }
  }

  /**
    * The whole of one step of `replace`: the text before the first occurrence
    * is copied, that occurrence is replaced, and the scan goes on after it.
    */
  lemma {:induction false} ReplaceFirst(x: string, y: string, pat: string, rep: string)
    requires |pat| > 0
    requires forall i :: 0 <= i < |x| ==> !StartsAt(x + pat + y, i, pat)
    ensures ReplaceAll(x + pat + y, pat, rep) == x + rep + ReplaceAll(y, pat, rep)
    decreases |x|
  {
    if x == [] {
      assert x + pat + y == pat + y;
      ReplaceHit(y, pat, rep);
    } else {
      var c, rest := x[0], x[1..];
      var t := rest + pat + y;
      assert x + pat + y == [c] + t by {
        assert x == [c] + rest;
      }
      assert !StartsAt([c] + t, 0, pat);
      forall i | 0 <= i < |rest| ensures !StartsAt(t, i, pat) {
        assert !StartsAt([c] + t, i + 1, pat);
        StartsAtShift(c, t, i, pat);
      }
      ReplaceFirst(rest, y, pat, rep);
      ReplaceMiss(c, t, pat, rep);
      assert x + rep + ReplaceAll(y, pat, rep) == [c] + (rest + rep + ReplaceAll(y, pat, rep)) by {
        assert x == [c] + rest;
      }
    }
  }

  /** Occurrences do not overlap: in "aaa" only the first "aa" is replaced. */
  lemma ReplaceNoOverlap()
    ensures ReplaceAll("aaa", "aa", "b") == "ba"
  {
    ReplaceFirst([], "a", "aa", "b");
    assert "aaa" == [] + "aa" + "a";
    assert ReplaceAll("a", "aa", "b") == "a";
  }

  // ---------------------------------------------------------------------
  // str.rfind and PurePath.suffix
  // ---------------------------------------------------------------------

  /** Python's `s.rfind(c)`, with `None` for -1. */
  function LastIndexOf(s: string, c: char): (r: Option<nat>)
    ensures r.Some? ==> r.value < |s| && s[r.value] == c
    ensures r.Some? ==> forall k :: r.value < k < |s| ==> s[k] != c
    ensures r.None? ==> c !in s
  {
    if s == [] then None
    else if s[|s| - 1] == c then Some(|s| - 1)
    else LastIndexOf(s[..|s| - 1], c)
  }

  /**
    * `PurePath(name).suffix.lstrip(".")`: the text after the last dot, unless
    * that dot is the first or the last character of the name.
    */
  function FileFormat(name: string): (f: string)
    ensures '.' !in f
    ensures f == [] <==>
      (forall k :: 0 < k < |name| ==> name[k] != '.') || (|name| > 0 && name[|name| - 1] == '.')
    ensures f != [] ==> |f| + 1 < |name| && name == name[..|name| - |f| - 1] + "." + f
  {
    match LastIndexOf(name, '.')
    case Some(i) => if 0 < i < |name| - 1 then name[i + 1..] else []
    case None => []
  }

  lemma {:induction false} LastIndexOfAfter(s: string, c: char, t: string)
    requires c !in t
    ensures LastIndexOf(s + [c] + t, c) == Some(|s|)
    decreases |t|
  {
    var u := s + [c] + t;
    if t != [] {
      assert u[..|u| - 1] == s + [c] + t[..|t| - 1];
      assert u[|u| - 1] == t[|t| - 1];
      LastIndexOfAfter(s, c, t[..|t| - 1]);
    } else {
      assert u[|u| - 1] == c;
    }
  }

  /** The format of "stem.ext" is "ext" when the extension has no dot and neither part is empty. */
  lemma FileFormatOf(stem: string, ext: string)
    requires |stem| > 0 && |ext| > 0 && '.' !in ext
    ensures FileFormat(stem + "." + ext) == ext
  {
    LastIndexOfAfter(stem, '.', ext);
    var name := stem + "." + ext;
    assert name[|stem| + 1..] == ext;
  }
}
