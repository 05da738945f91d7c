/**
  * The four `re.search` patterns of generate_github.py. Each has the shape
  *
  *     LIT( \d+ (?:\.\d+){lo-1 .. hi-1} [a-z]? )
  *
  * a literal prefix, then a captured run of between `lo` and `hi` digit runs
  * joined by single dots (no upper bound when `hi` is `None`), then, for one
  * pattern, an optional lower-case letter. `CaptureAt` says declaratively what
  * Python's backtracking matcher captures at one position; `Search` is a
  * left-to-right scanner proved to return the leftmost such capture.
  */
module Regex {
  import opened Wrappers
  import opened Text

  datatype Pattern = Pattern(lit: string, lo: nat, hi: Option<nat>, letter: bool)

  predicate WellFormed(p: Pattern) {
    p.lo >= 1 && (p.hi.Some? ==> p.hi.value >= p.lo)
  }

  /** r"SCx(\d+\.\d+)" */
  const MainPattern := Pattern("SCx", 2, Some(2), false)
  /** r"API(\d+\.\d+(?:\.\d+)*)" */
  const ApiPattern := Pattern("API", 2, None, false)
  /** r"SCx(\d+\.\d+\.\d+\.\d+[a-z]?)" */
  const NetPattern := Pattern("SCx", 4, Some(4), true)
  /** r"SCx(\d+\.\d+(?:\.\d+)?)" */
  const OriginalPattern := Pattern("SCx", 2, Some(3), false)

  /** A successful search: where the match starts and what group 1 captured. */
  datatype Match = Match(pos: nat, capture: string)

  // ---------------------------------------------------------------------
  // What a match is
  // ---------------------------------------------------------------------

  predicate DigitAt(s: string, e: int) { 0 <= e < |s| && IsDigit(s[e]) }

  predicate LowerAt(s: string, e: int) { 0 <= e < |s| && IsLower(s[e]) }

  /** At `e` stands a dot followed by a digit, so one more `\.\d+` group would match. */
  predicate DotDigitAt(s: string, e: int) {
    0 <= e && e + 1 < |s| && s[e] == '.' && IsDigit(s[e + 1])
  }

  /** A repetition that has matched `n` runs may still take another one. */
  predicate MayGrow(n: nat, hi: Option<nat>) { hi.None? || n < hi.value }

  /** `t` is between `lo` and `hi` non-empty digit runs separated by single dots. */
  predicate Dotted(t: string, lo: nat, hi: Option<nat>) {
    var parts := Split(t, '.');
    lo <= |parts| && (hi.Some? ==> |parts| <= hi.value) &&
    forall k :: 0 <= k < |parts| ==> IsDigits(parts[k])
  }

  /**
    * The digit groups of a pattern match exactly `s[j..e]`: that text has the
    * right shape, and greediness stopped it at `e`, since neither the last
    * run nor, while the repetition may grow, the list of runs continues there.
    */
  predicate GroupsSpan(s: string, j: nat, e: nat, lo: nat, hi: Option<nat>) {
    j <= e <= |s| && Dotted(s[j..e], lo, hi) && !DigitAt(s, e) &&
    (MayGrow(|Split(s[j..e], '.')|, hi) ==> !DotDigitAt(s, e))
  }

  /** The pattern matches at index `i` of `s` and its group captures `c`. */
  predicate CaptureAt(s: string, p: Pattern, i: nat, c: string) {
    StartsAt(s, i, p.lit) && StartsAt(s, i + |p.lit|, c) &&
    var j := i + |p.lit|;
    if p.letter && |c| > 0 && IsLower(c[|c| - 1]) then
      GroupsSpan(s, j, j + |c| - 1, p.lo, p.hi)
    else
      GroupsSpan(s, j, j + |c|, p.lo, p.hi) && !(p.letter && LowerAt(s, j + |c|))
  }

  /** `c` is the capture of the leftmost match of `p` in `s`. */
  ghost predicate Leftmost(s: string, p: Pattern, c: string) {
    exists i: nat :: CaptureAt(s, p, i, c) && forall k: nat, d :: CaptureAt(s, p, k, d) ==> i <= k
  }

  /** `p` matches nowhere in `s`. */
  ghost predicate NoMatch(s: string, p: Pattern) {
    forall k: nat, d :: !CaptureAt(s, p, k, d)
  }

  // ---------------------------------------------------------------------
  // The scanner
  // ---------------------------------------------------------------------

  /** The greedy match of the digit groups from index `j`, as the index where it ends. */
  function Groups(s: string, j: nat, lo: nat, hi: Option<nat>): (r: Option<nat>)
    requires j <= |s| && lo >= 1 && (hi.Some? ==> hi.value >= lo)
    ensures r.Some? ==> j < r.value <= |s|
    decreases |s| - j
  {
    var m := j + Run(s, j);
    if m == j then None
    else if MayGrow(1, hi) && DotDigitAt(s, m) then
      Groups(s, m + 1, Fewer(lo), Dec(hi))
    else if lo == 1 then Some(m)
    else None
  }

  /**
    * What the pattern captures when it is tried at index `i` alone: a match
    * needs the literal prefix at `i`, and its capture is the non-empty text
    * right after that prefix.
    */
  function MatchAt(s: string, p: Pattern, i: nat): (r: Option<string>)
    requires WellFormed(p)
    ensures r.Some? ==> StartsAt(s, i, p.lit) && StartsAt(s, i + |p.lit|, r.value) && |r.value| > 0
  {
    if !StartsAt(s, i, p.lit) then None
    else
      var j := i + |p.lit|;
      match Groups(s, j, p.lo, p.hi)
      case None => None
      case Some(e) => if p.letter && LowerAt(s, e) then Some(s[j..e + 1]) else Some(s[j..e])
  }

  /** Python's `re.search(p, s)`: try every start index from `i` on, leftmost first. */
  function SearchFrom(s: string, p: Pattern, i: nat): (r: Option<Match>)
    requires WellFormed(p)
    ensures r.Some? ==> i <= r.value.pos && CaptureAt(s, p, r.value.pos, r.value.capture)
    ensures forall k: nat, c :: i <= k && CaptureAt(s, p, k, c) ==> r.Some? && r.value.pos <= k
    decreases |s| + 1 - i
  {
    if i > |s| then None
    else
      MatchAtCorrect(s, p, i);
      match MatchAt(s, p, i)
      case Some(c) => Some(Match(i, c))
      case None => SearchFrom(s, p, i + 1)
  }

  /** `re.search(p, s)`: the result is the leftmost match, and there is one whenever the pattern matches anywhere. */
  function Search(s: string, p: Pattern): (r: Option<Match>)
    requires WellFormed(p)
    ensures r.Some? ==> CaptureAt(s, p, r.value.pos, r.value.capture)
    ensures forall k: nat, c :: CaptureAt(s, p, k, c) ==> r.Some? && r.value.pos <= k
  {
    SearchFrom(s, p, 0)
  }

  // ---------------------------------------------------------------------
  // Proofs
  // ---------------------------------------------------------------------

  /** A joined list of non-empty pieces starts with the first piece's first character and ends with the last piece's last. */
  lemma {:induction false} JoinEnds(parts: seq<string>, sep: char)
    requires |parts| >= 1
    requires forall k :: 0 <= k < |parts| ==> |parts[k]| > 0
    ensures |Join(parts, sep)| > 0
    ensures Join(parts, sep)[0] == parts[0][0]
    ensures Join(parts, sep)[|Join(parts, sep)| - 1] == parts[|parts| - 1][|parts[|parts| - 1]| - 1]
  {
    if |parts| > 1 {
      JoinEnds(parts[1..], sep);
    }
  }

  /** A dotted run starts and ends with a digit. */
  lemma DottedEnds(t: string, lo: nat, hi: Option<nat>)
    requires lo >= 1 && Dotted(t, lo, hi)
    ensures |t| > 0 && IsDigit(t[0]) && IsDigit(t[|t| - 1])
  {
    var parts := Split(t, '.');
    SplitJoin(t, '.');
    JoinEnds(parts, '.');
    assert IsDigits(parts[0]) && IsDigits(parts[|parts| - 1]);
  }

  /** The bounds left for the rest of the runs once the first run is matched. */
  function Fewer(lo: nat): nat { if lo > 1 then lo - 1 else 1 }

  function Dec(hi: Option<nat>): Option<nat> {
    if hi.Some? && hi.value > 0 then Some(hi.value - 1) else hi
  }

  /** A dotted run of two or more runs is its first run (`t[..h]`), a dot and a dotted run of one run fewer. */
  lemma DottedTail(t: string, lo: nat, hi: Option<nat>) returns (h: nat)
    requires lo >= 1 && Dotted(t, lo, hi) && |Split(t, '.')| >= 2
    ensures 0 < h && h + 1 < |t| && t[h] == '.' && IsDigit(t[h + 1])
    ensures forall q :: 0 <= q < h ==> IsDigit(t[q])
    ensures Dotted(t[h + 1..], Fewer(lo), Dec(hi))
    ensures |Split(t[h + 1..], '.')| + 1 == |Split(t, '.')|
  {
    var parts := Split(t, '.');
    SplitJoin(t, '.');
    var rest := Join(parts[1..], '.');
    h := |parts[0]|;
    assert t == parts[0] + ['.'] + rest;
    assert t[h + 1..] == rest;
    assert IsDigits(parts[0]);
    forall q | 0 <= q < h ensures IsDigit(t[q]) {
      assert t[q] == parts[0][q];
    }
    JoinSplit(parts[1..], '.');
    forall k | 0 <= k < |parts[1..]| ensures IsDigits(parts[1..][k]) {
      assert parts[1..][k] == parts[k + 1];
    }
    assert IsDigits(parts[1]);
    JoinEnds(parts[1..], '.');
  }

  /** A dotted run of one run is a run of digits. */
  lemma DottedSingle(t: string, lo: nat, hi: Option<nat>)
    requires Dotted(t, lo, hi) && |Split(t, '.')| == 1
    ensures IsDigits(t)
  {
    SplitJoin(t, '.');
  }

  /** A run of digits followed by something that stops it is a one-run match. */
  lemma SpanSingle(s: string, j: nat, e: nat, hi: Option<nat>)
    requires j < e <= |s|
    requires forall k :: j <= k < e ==> IsDigit(s[k])
    requires !DigitAt(s, e)
    requires hi.Some? ==> hi.value >= 1
    requires MayGrow(1, hi) ==> !DotDigitAt(s, e)
    ensures GroupsSpan(s, j, e, 1, hi)
  {
    var t := s[j..e];
    assert IsDigits(t) by {
      forall q | 0 <= q < |t| ensures IsDigit(t[q]) { assert t[q] == s[j + q]; }
    }
    SplitNoSep(t, '.');
  }

  /** A run of digits, a dot and a match of one run fewer make a match. */
  lemma SpanCons(s: string, j: nat, m: nat, e: nat, lo: nat, hi: Option<nat>)
    requires j < m < e <= |s|
    requires forall k :: j <= k < m ==> IsDigit(s[k])
    requires s[m] == '.'
    requires lo >= 1 && (hi.Some? ==> hi.value > 1)
    requires GroupsSpan(s, m + 1, e, Fewer(lo), Dec(hi))
    ensures GroupsSpan(s, j, e, lo, hi)
  {
    var a, b := s[j..m], s[m + 1..e];
    assert s[j..e] == a + ['.'] + b;
    assert IsDigits(a) by {
      forall q | 0 <= q < |a| ensures IsDigit(a[q]) { assert a[q] == s[j + q]; }
    }
    SplitCons(a, b, '.');
    var parts := Split(s[j..e], '.');
    assert parts == [a] + Split(b, '.');
    forall k | 0 <= k < |parts| ensures IsDigits(parts[k]) {
      if k > 0 {
        assert parts[k] == Split(b, '.')[k - 1];
      }
    }
  }

  /** A run of digits that something else follows is the longest run at its index. */
  lemma RunOfDigits(s: string, j: nat, t: string)
    requires j + |t| <= |s| && s[j..j + |t|] == t
    requires forall q :: 0 <= q < |t| ==> IsDigit(t[q])
    requires j + |t| == |s| || !IsDigit(s[j + |t|])
    ensures Run(s, j) == |t|
  {
    forall k | j <= k < j + |t| ensures IsDigit(s[k]) {
      assert s[k] == s[j..j + |t|][k - j];
    }
    RunUnique(s, j, |t|);
  }

  /** A match of one run ends where the longest run of digits ends. */
  lemma SpanFirstSingle(s: string, j: nat, e: nat, lo: nat, hi: Option<nat>)
    requires lo >= 1 && GroupsSpan(s, j, e, lo, hi) && |Split(s[j..e], '.')| == 1
    ensures j + Run(s, j) == e && j < e
    ensures lo == 1 && !(MayGrow(1, hi) && DotDigitAt(s, e))
  {
    var t := s[j..e];
    DottedSingle(t, lo, hi);
    RunOfDigits(s, j, t);
  }

  /** A match of several runs continues after the longest run of digits (ending at `m`), at a dot. */
  lemma SpanFirstMore(s: string, j: nat, e: nat, lo: nat, hi: Option<nat>) returns (m: nat)
    requires lo >= 1 && GroupsSpan(s, j, e, lo, hi) && |Split(s[j..e], '.')| >= 2
    ensures m == j + Run(s, j)
    ensures j < m < e && MayGrow(1, hi) && DotDigitAt(s, m)
    ensures GroupsSpan(s, m + 1, e, Fewer(lo), Dec(hi))
  {
    var t := s[j..e];
    var h := DottedTail(t, lo, hi);
    assert s[j..j + h] == t[..h];
    assert s[j + h] == t[h];
    RunOfDigits(s, j, t[..h]);
    m := j + h;
    assert s[m + 1] == t[h + 1];
    var rest := t[h + 1..];
    assert s[m + 1..e] == rest;
    assert MayGrow(|Split(rest, '.')|, Dec(hi)) == MayGrow(|Split(t, '.')|, hi);
  }

  /** A match starts with the longest run of digits (ending at `m`), and either ends there or continues after a dot. */
  lemma SpanFirst(s: string, j: nat, e: nat, lo: nat, hi: Option<nat>) returns (m: nat)
    requires lo >= 1 && GroupsSpan(s, j, e, lo, hi)
    ensures m == j + Run(s, j) && j < m <= e
    ensures m == e ==> lo == 1 && !(MayGrow(1, hi) && DotDigitAt(s, m))
    ensures m < e ==> MayGrow(1, hi) && DotDigitAt(s, m) && GroupsSpan(s, m + 1, e, Fewer(lo), Dec(hi))
  {
    if |Split(s[j..e], '.')| == 1 {
      SpanFirstSingle(s, j, e, lo, hi);
      m := e;
    } else {
      m := SpanFirstMore(s, j, e, lo, hi);
    }
  }

  lemma {:induction false} GroupsSound(s: string, j: nat, lo: nat, hi: Option<nat>)
    requires j <= |s| && lo >= 1 && (hi.Some? ==> hi.value >= lo)
    ensures Groups(s, j, lo, hi).Some? ==> GroupsSpan(s, j, Groups(s, j, lo, hi).value, lo, hi)
    decreases |s| - j
  {
    var m := j + Run(s, j);
    if m == j {
      assert Groups(s, j, lo, hi).None?;
    } else if MayGrow(1, hi) && DotDigitAt(s, m) {
      GroupsSound(s, m + 1, Fewer(lo), Dec(hi));
      var r := Groups(s, m + 1, Fewer(lo), Dec(hi));
      assert Groups(s, j, lo, hi) == r;
      if r.Some? {
        SpanCons(s, j, m, r.value, lo, hi);
      }
    } else if lo == 1 {
      assert Groups(s, j, lo, hi) == Some(m);
      SpanSingle(s, j, m, hi);
    } else {
      assert Groups(s, j, lo, hi).None?;
    }
  }

  lemma {:induction false} GroupsComplete(s: string, j: nat, e: nat, lo: nat, hi: Option<nat>)
    requires lo >= 1 && (hi.Some? ==> hi.value >= lo)
    requires GroupsSpan(s, j, e, lo, hi)
    ensures Groups(s, j, lo, hi) == Some(e)
    decreases |s| - j
  {
    var m := SpanFirst(s, j, e, lo, hi);
    if m < e {
      GroupsComplete(s, m + 1, e, Fewer(lo), Dec(hi));
    }
  }

  /** A capture that ends in the optional letter is found when the pattern is tried at its index. */
  lemma CaptureFoundLetter(s: string, p: Pattern, i: nat, c: string)
    requires WellFormed(p) && CaptureAt(s, p, i, c)
    requires p.letter && |c| > 0 && IsLower(c[|c| - 1])
    ensures MatchAt(s, p, i) == Some(c)
  {
    var j := i + |p.lit|;
    var e := j + |c| - 1;
    assert StartsAt(s, j, c) && GroupsSpan(s, j, e, p.lo, p.hi);
    GroupsComplete(s, j, e, p.lo, p.hi);
    assert s[j..j + |c|] == c;
    assert s[e] == c[|c| - 1];
    assert LowerAt(s, e) && s[j..e + 1] == c;
  }

  /** A capture that ends in a digit is found when the pattern is tried at its index. */
  lemma CaptureFoundPlain(s: string, p: Pattern, i: nat, c: string)
    requires WellFormed(p) && CaptureAt(s, p, i, c)
    requires !(p.letter && |c| > 0 && IsLower(c[|c| - 1]))
    ensures MatchAt(s, p, i) == Some(c)
  {
    var j := i + |p.lit|;
    assert GroupsSpan(s, j, j + |c|, p.lo, p.hi) && !(p.letter && LowerAt(s, j + |c|));
    GroupsComplete(s, j, j + |c|, p.lo, p.hi);
    assert s[j..j + |c|] == c;
  }

  /** A match whose groups are followed by a lower-case letter captures that letter too. */
  lemma FoundCaptureLetter(s: string, p: Pattern, i: nat, e: nat)
    requires WellFormed(p) && StartsAt(s, i, p.lit)
    requires GroupsSpan(s, i + |p.lit|, e, p.lo, p.hi)
    requires p.letter && LowerAt(s, e)
    ensures CaptureAt(s, p, i, s[i + |p.lit|..e + 1])
  {
    var c := s[i + |p.lit|..e + 1];
    assert c[|c| - 1] == s[e];
    assert c[..|c| - 1] == s[i + |p.lit|..e];
  }

  /** Otherwise the capture is the groups alone. */
  lemma FoundCapturePlain(s: string, p: Pattern, i: nat, e: nat)
    requires WellFormed(p) && StartsAt(s, i, p.lit)
    requires GroupsSpan(s, i + |p.lit|, e, p.lo, p.hi)
    requires !(p.letter && LowerAt(s, e))
    ensures CaptureAt(s, p, i, s[i + |p.lit|..e])
  {
    var j := i + |p.lit|;
    var c := s[j..e];
    DottedEnds(c, p.lo, p.hi);
    assert |c| == e - j && StartsAt(s, j, c);
    assert !IsLower(c[|c| - 1]);
  }

  /** What trying the pattern at an index returns is a capture there. */
  lemma FoundCapture(s: string, p: Pattern, i: nat)
    requires WellFormed(p) && MatchAt(s, p, i).Some?
    ensures CaptureAt(s, p, i, MatchAt(s, p, i).value)
  {
    var j := i + |p.lit|;
    var g := Groups(s, j, p.lo, p.hi);
    assert StartsAt(s, i, p.lit) && g.Some?;
    var e := g.value;
    GroupsSound(s, j, p.lo, p.hi);
    if p.letter && LowerAt(s, e) {
      assert MatchAt(s, p, i) == Some(s[j..e + 1]);
      FoundCaptureLetter(s, p, i, e);
    } else {
      assert MatchAt(s, p, i) == Some(s[j..e]);
      FoundCapturePlain(s, p, i, e);
    }
  }

  /** Trying the pattern at one index captures exactly the text `CaptureAt` describes, if any. */
  lemma MatchAtCorrect(s: string, p: Pattern, i: nat)
    requires WellFormed(p)
    ensures forall c :: CaptureAt(s, p, i, c) <==> MatchAt(s, p, i) == Some(c)
  {
    forall c | CaptureAt(s, p, i, c) ensures MatchAt(s, p, i) == Some(c) {
      if p.letter && |c| > 0 && IsLower(c[|c| - 1]) {
        CaptureFoundLetter(s, p, i, c);
      } else {
        CaptureFoundPlain(s, p, i, c);
      }
    }
    if MatchAt(s, p, i).Some? {
      FoundCapture(s, p, i);
    }
  }

  /** At one index there is at most one capture. */
  lemma CaptureUnique(s: string, p: Pattern, i: nat, c: string, d: string)
    requires WellFormed(p)
    requires CaptureAt(s, p, i, c) && CaptureAt(s, p, i, d)
    ensures c == d
  {
    MatchAtCorrect(s, p, i);
  }

  /** What `Search` finds, said with `Leftmost` and `NoMatch`. */
  lemma SearchMeaning(s: string, p: Pattern)
    requires WellFormed(p)
    ensures Search(s, p).Some? ==> Leftmost(s, p, Search(s, p).value.capture)
    ensures Search(s, p).None? <==> NoMatch(s, p)
  {
  }

  /** There is only one leftmost capture. */
  lemma LeftmostUnique(s: string, p: Pattern, c: string, d: string)
    requires WellFormed(p) && Leftmost(s, p, c) && Leftmost(s, p, d)
    ensures c == d
  {
    var i: nat :| CaptureAt(s, p, i, c) && forall k: nat, e :: CaptureAt(s, p, k, e) ==> i <= k;
    var m: nat :| CaptureAt(s, p, m, d) && forall k: nat, e :: CaptureAt(s, p, k, e) ==> m <= k;
    assert i == m;
    CaptureUnique(s, p, i, c, d);
  }

  /** Without the optional letter, a capture is `lo` to `hi` digit runs joined by dots. */
  lemma CaptureDotted(s: string, p: Pattern, i: nat, c: string)
    requires WellFormed(p) && !p.letter && CaptureAt(s, p, i, c)
    ensures Dotted(c, p.lo, p.hi)
  {
    var j := i + |p.lit|;
    assert s[j..j + |c|] == c;
  }
}
