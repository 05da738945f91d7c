/**
  * `process_dict` of gitee.py: walk a loaded manifest and point every `path`
  * value at the Gitee mirror instead of GitHub.
  *
  * `Rewrite` says what the walk produces, member by member; `ProcessTree` is
  * the walk itself, with its two phases and its two loops. Python changes the
  * loaded tree in place; here the walk returns the changed tree, and an
  * `AttributeError` (a `path` value that is not a string) is an `Err`.
  */
module MirrorRewriter {
  import opened Wrappers
  import opened Text
  import opened Json
  import Records

  const PathKey := "path"
  const GithubOwner := "github.com/jxsm"
  const GiteeOwner := "gitee.com/jxsmjxee"
  const BranchRef := "refs/heads/main"
  const Branch := "main"
  /** The download base the GitHub one becomes: "https://gitee.com/jxsmjxee/SCVersionList/raw/main/". */
  const GiteeBase := "https://" + GiteeOwner + "/SCVersionList/raw/main/"

  /** Python's `AttributeError` on `.replace` of a value that is not a string. */
  datatype Error = PathNotString

  /** The two replacements, in their fixed order; a path holding neither pattern is left as it is. */
  function RewritePath(s: string): (r: string)
    ensures !Contains(s, GithubOwner) && !Contains(s, BranchRef) ==> r == s
  {
    var t := ReplaceAll(s, GithubOwner, GiteeOwner);
    assert !Contains(s, GithubOwner) && !Contains(s, BranchRef) ==> t == s && ReplaceAll(t, BranchRef, Branch) == t by {
      if !Contains(s, GithubOwner) && !Contains(s, BranchRef) {
        ReplaceAbsent(s, GithubOwner, GiteeOwner);
        ReplaceAbsent(s, BranchRef, Branch);
      }
    }
    ReplaceAll(t, BranchRef, Branch)
  }

  // ---------------------------------------------------------------------
  // What the walk produces
  // ---------------------------------------------------------------------

  /**
    * The document after `process_dict`, or the error it raises. It keeps the
    * kind of the document, the length of a list or a mapping, and anything
    * that is neither.
    */
  function Rewrite(j: Json): (r: Result<Json, Error>)
    ensures r.Ok? ==> (r.value.Arr? <==> j.Arr?) && (r.value.Obj? <==> j.Obj?)
    ensures r.Ok? && j.Arr? ==> |r.value.items| == |j.items|
    ensures r.Ok? && j.Obj? ==> |r.value.members| == |j.members|
    ensures !j.Arr? && !j.Obj? ==> r == Ok(j)
    decreases j, 1
  {
    match j
    case Arr(items) =>
      (match RewriteItems(items)
       case Ok(xs) => Ok(Arr(xs))
       case Err(e) => Err(e))
    case Obj(ms) =>
      (match RewriteMembers(ms)
       case Ok(xs) => Ok(Obj(xs))
       case Err(e) => Err(e))
    case _ => Ok(j)
  }

  /** Every element of a list, in order; the first failure is the list's. */
  function RewriteItems(xs: seq<Json>): (r: Result<seq<Json>, Error>)
    ensures r.Ok? ==> |r.value| == |xs|
    decreases xs, 0
  {
    if xs == [] then Ok([])
    else
      match RewriteItems(xs[..|xs| - 1])
      case Err(e) => Err(e)
      case Ok(init) =>
        match Rewrite(xs[|xs| - 1])
        case Err(e) => Err(e)
        case Ok(v) => Ok(init + [v])
  }

  /**
    * A `path` member gets its string rewritten, and fails when its value is
    * not a string; any other member has its value walked. The key stays.
    */
  function RewriteMember(m: Member): (r: Result<Member, Error>)
    ensures r.Ok? ==> r.value.key == m.key
    ensures m.key == PathKey ==> (r.Ok? <==> m.value.Str?)
    decreases m, 1
  {
    if m.key == PathKey then
      if m.value.Str? then Ok(Member(m.key, Str(RewritePath(m.value.s)))) else Err(PathNotString)
    else
      match Rewrite(m.value)
      case Err(e) => Err(e)
      case Ok(v) => Ok(Member(m.key, v))
  }

  /** Every member of a mapping, in order, each keeping its key. */
  function RewriteMembers(ms: seq<Member>): (r: Result<seq<Member>, Error>)
    ensures r.Ok? ==> |r.value| == |ms| && forall i :: 0 <= i < |ms| ==> r.value[i].key == ms[i].key
    decreases ms, 0
  {
    if ms == [] then Ok([])
    else
      match RewriteMembers(ms[..|ms| - 1])
      case Err(e) => Err(e)
      case Ok(init) =>
        match RewriteMember(ms[|ms| - 1])
        case Err(e) => Err(e)
        case Ok(m) => Ok(init + [m])
  }

  // ---------------------------------------------------------------------
  // The walk
  // ---------------------------------------------------------------------

  /**
    * `process_dict(d)`: a mapping and a list are walked, anything else is left
    * alone.
    */
  method ProcessTree(d: Json) returns (r: Result<Json, Error>)
    requires UniqueKeys(d)
    ensures r == Rewrite(d)
    // a rewritten path is a string, which the mapping's second phase visits without recursing
    decreases if d.Str? then 0 else 1, d, 1
  {
    match d {
      case Obj(ms) =>
        var rs := ProcessMapping(ms);
        r := if rs.Ok? then Ok(Obj(rs.value)) else Err(rs.error);
      case Arr(items) =>
        var rs := ProcessList(items);
        r := if rs.Ok? then Ok(Arr(rs.value)) else Err(rs.error);
      case _ =>
        r := Ok(d);
    }
  }

  /**
    * The mapping branch of `process_dict`: first rewrite `d['path']`, if there
    * is one, then walk every value, the rewritten path included.
    */
  method ProcessMapping(ms: seq<Member>) returns (r: Result<seq<Member>, Error>)
    requires UniqueKeys(Obj(ms))
    ensures r == RewriteMembers(ms)
    decreases 1, Obj(ms), 0
  {
    var members := ms;
    var at := KeyIndex(ms, PathKey);
    if at.Some? {
      var p := ms[at.value].value;
      if !p.Str? {
        MembersErr(ms, at.value);
        return Err(PathNotString);
      }
      members := members[at.value := Member(PathKey, Str(RewritePath(p.s)))];
    }
    ghost var staged := members;
    var k := 0;
    while k < |members|
      invariant 0 <= k <= |members| == |ms|
      invariant forall i :: k <= i < |members| ==> members[i] == staged[i]
      invariant RewriteMembers(ms[..k]) == Ok(members[..k])
    {
      var m := members[k];
      assert ms[k].key != PathKey ==> m == ms[k];
      var v := ProcessTree(m.value);
      if v.Err? {
        MembersErr(ms, k);
        return Err(PathNotString);
      }
      MembersSnoc(ms, k, members[..k], Member(m.key, v.value));
      members := members[k := Member(m.key, v.value)];
      assert members[..k + 1] == members[..k] + [Member(m.key, v.value)];
      k := k + 1;
    }
    assert ms[..k] == ms && members[..k] == members;
    return Ok(members);
  }

  /** The list branch of `process_dict`: walk every item in order. */
  method ProcessList(items: seq<Json>) returns (r: Result<seq<Json>, Error>)
    requires UniqueKeys(Arr(items))
    ensures r == RewriteItems(items)
    decreases 1, Arr(items), 0
  {
    var out := [];
    var k := 0;
    while k < |items|
      invariant 0 <= k <= |items|
      invariant RewriteItems(items[..k]) == Ok(out)
    {
      var v := ProcessTree(items[k]);
      assert items[..k + 1][..k] == items[..k] && items[..k + 1][k] == items[k];
      if v.Err? {
        ItemsErr(items, k);
        return Err(PathNotString);
      }
      out := out + [v.value];
      k := k + 1;
    }
    assert items[..k] == items;
    return Ok(out);
  }

  /** A failure at item `k` is the failure of the whole list. */
  lemma {:induction false} ItemsErr(xs: seq<Json>, k: nat)
    requires k < |xs| && RewriteItems(xs[..k + 1]).Err?
    ensures RewriteItems(xs) == Err(PathNotString)
    decreases |xs| - k
  {
    if k + 1 < |xs| {
      var init := xs[..|xs| - 1];
      assert init[..k + 1] == xs[..k + 1];
      ItemsErr(init, k);
    } else {
      assert xs[..k + 1] == xs;
      assert RewriteItems(xs).Err?;
      assert RewriteItems(xs).error.PathNotString?;
    }
  }

  /** Walking one more member extends the walked prefix by that member. */
  lemma MembersSnoc(ms: seq<Member>, k: nat, done: seq<Member>, m: Member)
    requires k < |ms| && RewriteMembers(ms[..k]) == Ok(done) && RewriteMember(ms[k]) == Ok(m)
    ensures RewriteMembers(ms[..k + 1]) == Ok(done + [m])
  {
    assert ms[..k + 1][..k] == ms[..k] && ms[..k + 1][k] == ms[k];
  }

  /** A failure at member `k` is the failure of the whole mapping. */
  lemma {:induction false} MembersErr(ms: seq<Member>, k: nat)
    requires k < |ms| && (RewriteMembers(ms[..k + 1]).Err? || (ms[k].key == PathKey && !ms[k].value.Str?))
    ensures RewriteMembers(ms) == Err(PathNotString)
    decreases |ms| - k
  {
    var pre := ms[..k + 1];
    assert pre[..k] == ms[..k] && pre[k] == ms[k];
    assert RewriteMembers(pre).Err?;
    if k + 1 < |ms| {
      var init := ms[..|ms| - 1];
      assert init[..k + 1] == pre;
      MembersErr(init, k);
    } else {
      assert pre == ms;
      assert RewriteMembers(ms).Err?;
      assert RewriteMembers(ms).error.PathNotString?;
    }
  }

  // ---------------------------------------------------------------------
  // What the walk keeps and what it changes
  // ---------------------------------------------------------------------

  /** The document with every value stored under a `path` key replaced by `null`. */
  function Blank(j: Json): Json
    decreases j, 1
  {
    match j
    case Arr(items) => Arr(BlankItems(items))
    case Obj(ms) => Obj(BlankMembers(ms))
    case _ => j
  }

  function BlankItems(xs: seq<Json>): (r: seq<Json>)
    ensures |r| == |xs|
    decreases xs, 0
  {
    if xs == [] then [] else BlankItems(xs[..|xs| - 1]) + [Blank(xs[|xs| - 1])]
  }

  function BlankMember(m: Member): (r: Member)
    ensures r.key == m.key
    decreases m, 1
  {
    if m.key == PathKey then Member(m.key, Null) else Member(m.key, Blank(m.value))
  }

  function BlankMembers(ms: seq<Member>): (r: seq<Member>)
    ensures |r| == |ms|
    decreases ms, 0
  {
    if ms == [] then [] else BlankMembers(ms[..|ms| - 1]) + [BlankMember(ms[|ms| - 1])]
  }

  /** The values stored under `path` keys, in document order. */
  function Paths(j: Json): seq<Json>
    decreases j, 1
  {
    match j
    case Arr(items) => PathsItems(items)
    case Obj(ms) => PathsMembers(ms)
    case _ => []
  }

  function PathsItems(xs: seq<Json>): seq<Json>
    decreases xs, 0
  {
    if xs == [] then [] else PathsItems(xs[..|xs| - 1]) + Paths(xs[|xs| - 1])
  }

  function PathsMember(m: Member): seq<Json>
    decreases m, 1
  {
    if m.key == PathKey then [m.value] else Paths(m.value)
  }

  function PathsMembers(ms: seq<Member>): seq<Json>
    decreases ms, 0
  {
    if ms == [] then [] else PathsMembers(ms[..|ms| - 1]) + PathsMember(ms[|ms| - 1])
  }

  /** Every value is a string. */
  predicate AllStrings(ps: seq<Json>) {
    forall i :: 0 <= i < |ps| ==> ps[i].Str?
  }

  /** Each string value rewritten by `RewritePath`. */
  function RewriteEach(ps: seq<Json>): (r: seq<Json>)
    requires AllStrings(ps)
    ensures |r| == |ps| && forall i :: 0 <= i < |ps| ==> r[i] == Str(RewritePath(ps[i].s))
  {
    seq(|ps|, i requires 0 <= i < |ps| => Str(RewritePath(ps[i].s)))
  }

  lemma AllStringsAppend(a: seq<Json>, b: seq<Json>)
    ensures AllStrings(a + b) <==> AllStrings(a) && AllStrings(b)
  {
    if AllStrings(a + b) {
      forall i | 0 <= i < |a| ensures a[i].Str? {
        assert (a + b)[i] == a[i];
      }
      forall i | 0 <= i < |b| ensures b[i].Str? {
        assert (a + b)[|a| + i] == b[i];
      }
    }
    if AllStrings(a) && AllStrings(b) {
      forall i | 0 <= i < |a + b| ensures (a + b)[i].Str? {
        if i >= |a| {
          assert (a + b)[i] == b[i - |a|];
        }
      }
    }
  }

  lemma RewriteEachAppend(a: seq<Json>, b: seq<Json>)
    requires AllStrings(a) && AllStrings(b)
    ensures AllStrings(a + b) && RewriteEach(a + b) == RewriteEach(a) + RewriteEach(b)
  {
    AllStringsAppend(a, b);
  }

  /**
    * The walk succeeds exactly when every `path` value is a string; then it
    * keeps everything else and rewrites each path with `RewritePath`.
    */
  lemma {:induction false} RewriteSpec(j: Json)
    ensures Rewrite(j).Ok? <==> AllStrings(Paths(j))
    ensures Rewrite(j).Ok? ==>
      Blank(Rewrite(j).value) == Blank(j) && Paths(Rewrite(j).value) == RewriteEach(Paths(j))
    decreases j, 1
  {
    match j
    case Arr(items) => RewriteItemsSpec(items);
    case Obj(ms) => RewriteMembersSpec(ms);
    case _ =>
  }

  lemma {:induction false} RewriteItemsSpec(xs: seq<Json>)
    ensures RewriteItems(xs).Ok? <==> AllStrings(PathsItems(xs))
    ensures RewriteItems(xs).Ok? ==>
      BlankItems(RewriteItems(xs).value) == BlankItems(xs) &&
      PathsItems(RewriteItems(xs).value) == RewriteEach(PathsItems(xs))
    decreases xs, 0
  {
    if xs != [] {
      var init, last := xs[..|xs| - 1], xs[|xs| - 1];
      RewriteItemsSpec(init);
      RewriteSpec(last);
      AllStringsAppend(PathsItems(init), Paths(last));
      if RewriteItems(xs).Ok? {
        var a, v := RewriteItems(init).value, Rewrite(last).value;
        var r := a + [v];
        assert r[..|r| - 1] == a && r[|r| - 1] == v;
        RewriteEachAppend(PathsItems(init), Paths(last));
      }
    }
  }

  lemma {:induction false} RewriteMemberSpec(m: Member)
    ensures RewriteMember(m).Ok? <==> AllStrings(PathsMember(m))
    ensures RewriteMember(m).Ok? ==>
      BlankMember(RewriteMember(m).value) == BlankMember(m) &&
      PathsMember(RewriteMember(m).value) == RewriteEach(PathsMember(m))
    decreases m, 1
  {
    if m.key != PathKey {
      RewriteSpec(m.value);
    } else {
      assert [m.value][0] == m.value;
    }
  }

  lemma {:induction false} RewriteMembersSpec(ms: seq<Member>)
    ensures RewriteMembers(ms).Ok? <==> AllStrings(PathsMembers(ms))
    ensures RewriteMembers(ms).Ok? ==>
      BlankMembers(RewriteMembers(ms).value) == BlankMembers(ms) &&
      PathsMembers(RewriteMembers(ms).value) == RewriteEach(PathsMembers(ms))
    decreases ms, 0
  {
    if ms != [] {
      var init, last := ms[..|ms| - 1], ms[|ms| - 1];
      RewriteMembersSpec(init);
      RewriteMemberSpec(last);
      AllStringsAppend(PathsMembers(init), PathsMember(last));
      if RewriteMembers(ms).Ok? {
        var a, v := RewriteMembers(init).value, RewriteMember(last).value;
        var r := a + [v];
        assert r[..|r| - 1] == a && r[|r| - 1] == v;
        RewriteEachAppend(PathsMembers(init), PathsMember(last));
      }
    }
  }

  /** Two documents that agree once their paths are blanked hold the same number of paths. */
  lemma {:induction false} PathsCount(a: Json, b: Json)
    requires Blank(a) == Blank(b)
    ensures |Paths(a)| == |Paths(b)|
    decreases a, 1
  {
    match a
    case Arr(xs) => PathsItemsCount(xs, b.items);
    case Obj(ms) => PathsMembersCount(ms, b.members);
    case _ =>
  }

  lemma {:induction false} PathsItemsCount(xs: seq<Json>, ys: seq<Json>)
    requires BlankItems(xs) == BlankItems(ys)
    ensures |PathsItems(xs)| == |PathsItems(ys)|
    decreases xs, 0
  {
    if xs != [] {
      var bxs, bys := BlankItems(xs), BlankItems(ys);
      assert bxs[..|bxs| - 1] == BlankItems(xs[..|xs| - 1]) && bys[..|bys| - 1] == BlankItems(ys[..|ys| - 1]);
      PathsItemsCount(xs[..|xs| - 1], ys[..|ys| - 1]);
      PathsCount(xs[|xs| - 1], ys[|ys| - 1]);
    }
  }

  lemma {:induction false} PathsMemberCount(m: Member, n: Member)
    requires BlankMember(m) == BlankMember(n)
    ensures |PathsMember(m)| == |PathsMember(n)|
    decreases m, 1
  {
    if m.key != PathKey {
      PathsCount(m.value, n.value);
    }
  }

  lemma {:induction false} PathsMembersCount(ms: seq<Member>, ns: seq<Member>)
    requires BlankMembers(ms) == BlankMembers(ns)
    ensures |PathsMembers(ms)| == |PathsMembers(ns)|
    decreases ms, 0
  {
    if ms != [] {
      var bm, bn := BlankMembers(ms), BlankMembers(ns);
      assert bm[..|bm| - 1] == BlankMembers(ms[..|ms| - 1]) && bn[..|bn| - 1] == BlankMembers(ns[..|ns| - 1]);
      PathsMembersCount(ms[..|ms| - 1], ns[..|ns| - 1]);
      PathsMemberCount(ms[|ms| - 1], ns[|ns| - 1]);
    }
  }

  /** A document is determined by its blanked form and its paths. */
  lemma {:induction false} Determined(a: Json, b: Json)
    requires Blank(a) == Blank(b) && Paths(a) == Paths(b)
    ensures a == b
    decreases a, 1
  {
    match a
    case Arr(xs) => ItemsDetermined(xs, b.items);
    case Obj(ms) => MembersDetermined(ms, b.members);
    case _ =>
  }

  lemma {:induction false} ItemsDetermined(xs: seq<Json>, ys: seq<Json>)
    requires BlankItems(xs) == BlankItems(ys) && PathsItems(xs) == PathsItems(ys)
    ensures xs == ys
    decreases xs, 0
  {
    if xs != [] {
      var ix, iy, lx, ly := xs[..|xs| - 1], ys[..|ys| - 1], xs[|xs| - 1], ys[|ys| - 1];
      SplitAppend(BlankItems(ix), [Blank(lx)], BlankItems(iy), [Blank(ly)]);
      PathsItemsCount(ix, iy);
      SplitAppend(PathsItems(ix), Paths(lx), PathsItems(iy), Paths(ly));
      ItemsDetermined(ix, iy);
      Determined(lx, ly);
      assert xs == ix + [lx] && ys == iy + [ly];
    }
  }

  /** Two concatenations with equally long first parts are equal part by part. */
  lemma SplitAppend<T>(a: seq<T>, b: seq<T>, c: seq<T>, d: seq<T>)
    requires a + b == c + d && |a| == |c|
    ensures a == c && b == d
  {
    assert a == (a + b)[..|a|] && c == (c + d)[..|c|];
    assert b == (a + b)[|a|..] && d == (c + d)[|c|..];
  }

  lemma {:induction false} MemberDetermined(m: Member, n: Member)
    requires BlankMember(m) == BlankMember(n) && PathsMember(m) == PathsMember(n)
    ensures m == n
    decreases m, 1
  {
    if m.key != PathKey {
      Determined(m.value, n.value);
    } else {
      assert [m.value][0] == m.value && [n.value][0] == n.value;
    }
  }

  lemma {:induction false} MembersDetermined(ms: seq<Member>, ns: seq<Member>)
    requires BlankMembers(ms) == BlankMembers(ns) && PathsMembers(ms) == PathsMembers(ns)
    ensures ms == ns
    decreases ms, 0
  {
    if ms != [] {
      var im, jn, lm, ln := ms[..|ms| - 1], ns[..|ns| - 1], ms[|ms| - 1], ns[|ns| - 1];
      SplitAppend(BlankMembers(im), [BlankMember(lm)], BlankMembers(jn), [BlankMember(ln)]);
      PathsMembersCount(im, jn);
      SplitAppend(PathsMembers(im), PathsMember(lm), PathsMembers(jn), PathsMember(ln));
      MembersDetermined(im, jn);
      MemberDetermined(lm, ln);
      assert ms == im + [lm] && ns == jn + [ln];
    }
  }

  /**
    * `Rewrite(j)` is the one document that keeps everything of `j` except its
    * paths and holds the rewritten paths in their places; it exists exactly
    * when every path is a string.
    */
  lemma RewriteCharacterized(j: Json, r: Json)
    ensures Rewrite(j) == Ok(r) <==>
      AllStrings(Paths(j)) && Blank(r) == Blank(j) && Paths(r) == RewriteEach(Paths(j))
  {
    RewriteSpec(j);
    if AllStrings(Paths(j)) && Blank(r) == Blank(j) && Paths(r) == RewriteEach(Paths(j)) {
      Determined(r, Rewrite(j).value);
    }
  }

  // ---------------------------------------------------------------------
  // The path rewrite on its own
  // ---------------------------------------------------------------------

  /** A document whose paths are all strings the rewrite does not touch comes back unchanged. */
  lemma RewriteUntouched(j: Json)
    requires forall i :: 0 <= i < |Paths(j)| ==>
      Paths(j)[i].Str? && !Contains(Paths(j)[i].s, GithubOwner) && !Contains(Paths(j)[i].s, BranchRef)
    ensures Rewrite(j) == Ok(j)
  {
    var ps := Paths(j);
    assert RewriteEach(ps) == ps;
    RewriteCharacterized(j, j);
  }

  /** Replacing in `h + pat + t + y`, where `pat` cannot start inside `h` or `t`. */
  lemma SkipHitSkip(h: string, t: string, y: string, pat: string, rep: string)
    requires |pat| > 0 && pat[0] !in h && pat[0] !in t
    ensures ReplaceAll(h + pat + t + y, pat, rep) == h + rep + t + ReplaceAll(y, pat, rep)
  {
    assert h + pat + t + y == h + (pat + (t + y));
    assert h + rep + t + ReplaceAll(y, pat, rep) == h + (rep + (t + ReplaceAll(y, pat, rep)));
    ReplaceSkip(h, pat + (t + y), pat, rep);
    ReplaceHit(t + y, pat, rep);
    ReplaceSkip(t, y, pat, rep);
  }

  /** `pat` cannot start at a character followed by one that differs from `pat[1]`. */
  lemma MissBefore(ch: char, y: string, pat: string, rep: string)
    requires |pat| > 1 && |y| > 0 && y[0] != pat[1]
    ensures ReplaceAll([ch] + y, pat, rep) == [ch] + ReplaceAll(y, pat, rep)
  {
    var s := [ch] + y;
    if |pat| <= |s| {
      assert s[0..|pat|][1] == s[1] == y[0];
    }
    ReplaceMiss(ch, y, pat, rep);
  }

  /** Replacing in `a + [ch] + b + y` copies the three chunks when `pat` cannot start in them. */
  lemma SkipMissSkip(a: string, ch: char, b: string, y: string, pat: string, rep: string)
    requires |pat| > 1 && pat[0] !in a && pat[0] !in b && |b| > 0 && b[0] != pat[1]
    ensures ReplaceAll(a + ([ch] + (b + y)), pat, rep) == a + ([ch] + (b + ReplaceAll(y, pat, rep)))
  {
    ReplaceSkip(a, [ch] + (b + y), pat, rep);
    MissBefore(ch, b + y, pat, rep);
    ReplaceSkip(b, y, pat, rep);
  }

  /** Replacing in `a + [ch] + b + [ch] + c + x` copies the five chunks when `pat` cannot start in them. */
  lemma SkipMissTwice(a: string, ch: char, b: string, c: string, x: string, pat: string, rep: string)
    requires |pat| > 1 && pat[0] !in a && pat[0] !in b && pat[0] !in c
    requires |b| > 0 && |c| > 0 && b[0] != pat[1] && c[0] != pat[1]
    ensures ReplaceAll(a + [ch] + b + [ch] + c + x, pat, rep) == a + [ch] + b + [ch] + c + ReplaceAll(x, pat, rep)
  {
    var rx := ReplaceAll(x, pat, rep);
    assert a + [ch] + b + [ch] + c + x == a + ([ch] + (b + ([ch] + (c + x))));
    assert a + [ch] + b + [ch] + c + rx == a + ([ch] + (b + ([ch] + (c + rx))));
    SkipMissSkip(a, ch, b, [ch] + (c + x), pat, rep);
    MissBefore(ch, c + x, pat, rep);
    ReplaceSkip(c, x, pat, rep);
  }

  // `GithubBaseSplit`, `GithubBaseParts`, `BaseTailSplit`, `GiteeBaseParts` and
  // `Regroup` only cut the two download bases and a path into pieces, and
  // `GithubHalf` and `BranchHalf` are the two steps of `RewriteGithubBase`.
  // They are separate lemmas to keep each proof small for the solver.

  lemma GithubBaseSplit()
    ensures Records.GithubBase == "https://" + GithubOwner + "/SCVersionList/raw/main/"
  {
  }

  lemma GithubBaseParts()
    ensures 'g' !in "https://" && 'g' !in "/SCVersionList/raw/main/" && GithubOwner[0] == 'g'
  {
    assert 'g' !in "https://";
    assert 'g' !in "/SCVersionList/raw/main/";
  }

  lemma BaseTailSplit()
    ensures "/SCVersionList/raw/main/" == "/SCVe" + ['r'] + "sionList/" + ['r'] + "aw/main/"
  {
  }

  lemma GiteeBaseParts()
    ensures 'r' !in "https://" + GiteeOwner + "/SCVe" && 'r' !in "sionList/" && 'r' !in "aw/main/"
    ensures BranchRef[0] == 'r' && BranchRef[1] == 'e' && |BranchRef| > 1
  {
    assert 'r' !in "https://";
    assert 'r' !in GiteeOwner;
    assert 'r' !in "/SCVe";
    assert 'r' !in "sionList/";
    assert 'r' !in "aw/main/";
  }

  /** The first replacement turns the GitHub base into the Gitee owner's. */
  lemma GithubHalf(rest: string)
    ensures ReplaceAll(Records.GithubBase + rest, GithubOwner, GiteeOwner) ==
      GiteeBase + ReplaceAll(rest, GithubOwner, GiteeOwner)
  {
    GithubBaseSplit();
    GithubBaseParts();
    SkipHitSkip("https://", "/SCVersionList/raw/main/", rest, GithubOwner, GiteeOwner);
  }

  /** The second replacement leaves that base alone. */
  lemma BranchHalf(x: string)
    ensures ReplaceAll(GiteeBase + x, BranchRef, Branch) == GiteeBase + ReplaceAll(x, BranchRef, Branch)
  {
    var a, b, c := "https://" + GiteeOwner + "/SCVe", "sionList/", "aw/main/";
    BaseTailSplit();
    GiteeBaseParts();
    assert GiteeBase == a + ['r'] + b + ['r'] + c;
    assert GiteeBase + x == a + ['r'] + b + ['r'] + c + x;
    SkipMissTwice(a, 'r', b, c, x, BranchRef, Branch);
  }

  /** A GitHub download link as generate_github.py builds it becomes the Gitee one, the rest rewritten alike. */
  lemma RewriteGithubBase(rest: string)
    ensures RewritePath(Records.GithubBase + rest) == GiteeBase + RewritePath(rest)
  {
    GithubHalf(rest);
    BranchHalf(ReplaceAll(rest, GithubOwner, GiteeOwner));
  }

  /** Moves the download base to the front of a path assembled from eight parts. */
  lemma Regroup(g: string, a: string, b: string, c: string, d: string, e: string, f: string, h: string)
    ensures g + a + b + c + d + e + f + h == g + (a + b + c + d + e + f + h)
  {
  }

  /** Every file path of the manifest ends up under the Gitee download base. */
  lemma MirroredFilePath(e: Records.Entry, folder: string)
    ensures var r := Records.ParseFileInfo(e, folder);
      RewritePath(r.info.path) == GiteeBase + RewritePath(
        folder + "%2F" + r.mainVersion + "%20" + r.info.subVersion + "." + r.info.fileFormat)
  {
    var r := Records.ParseFileInfo(e, folder);
    var rest := folder + "%2F" + r.mainVersion + "%20" + r.info.subVersion + "." + r.info.fileFormat;
    Regroup(Records.GithubBase, folder, "%2F", r.mainVersion, "%20", r.info.subVersion, ".", r.info.fileFormat);
    RewriteGithubBase(rest);
  }

  /** A string without the first character of `pat` is left as it is. */
  lemma Untouched(s: string, pat: string, rep: string)
    requires |pat| > 0 && pat[0] !in s
    ensures ReplaceAll(s, pat, rep) == s
  {
    ReplaceSkip(s, [], pat, rep);
    assert s + [] == s;
  }

  lemma HitThenCopy(m: string, pat: string, rep: string)
    requires |pat| > 0 && pat[0] !in m
    ensures ReplaceAll(pat + m, pat, rep) == rep + m
  {
    ReplaceHit(m, pat, rep);
    Untouched(m, pat, rep);
  }

  lemma SkipThenHit(e: string, m: string, pat: string, rep: string)
    requires |pat| > 0 && pat[0] !in e && pat[0] !in m
    ensures ReplaceAll(e + (pat + m), pat, rep) == e + (rep + m)
  {
    ReplaceSkip(e, pat + m, pat, rep);
    HitThenCopy(m, pat, rep);
  }

  lemma MissThenHit(ch: char, e: string, m: string, pat: string, rep: string)
    requires |pat| > 0 && pat[0] !in e && pat[0] !in m
    requires !StartsAt([ch] + e + pat + m, 0, pat)
    ensures ReplaceAll([ch] + e + pat + m, pat, rep) == [ch] + e + rep + m
  {
    assert [ch] + e + pat + m == [ch] + (e + (pat + m));
    assert [ch] + e + rep + m == [ch] + (e + (rep + m));
    ReplaceMiss(ch, e + (pat + m), pat, rep);
    SkipThenHit(e, m, pat, rep);
  }

  lemma RefsParts()
    ensures "refs/heads/" == ['r'] + "efs/heads/" && "refs/heads/" + Branch == BranchRef
    ensures 'r' !in "efs/heads/" && 'r' !in "main" && BranchRef[0] == 'r'
    ensures 'g' !in "refs/heads/" && 'g' !in BranchRef && 'g' !in "main" && GithubOwner[0] == 'g'
  {
    assert 'r' !in "efs/heads/";
    assert 'r' !in "main";
    assert 'g' !in "refs/heads/";
    assert 'g' !in BranchRef;
    assert 'g' !in "main";
  }

  lemma NestedRefMiss()
    ensures !StartsAt("refs/heads/" + BranchRef + "main", 0, BranchRef)
  {
    var s := "refs/heads/" + BranchRef + "main";
    assert s[11] == 'r' && BranchRef[11] == 'm';
    if |BranchRef| <= |s| {
      assert s[0..|BranchRef|][11] == s[11];
    }
  }

  /**
    * One pass can leave a branch reference behind, so the rewrite is not
    * idempotent: "refs/heads/refs/heads/mainmain" becomes
    * "refs/heads/mainmain", which a second pass turns into "mainmain".
    */
  lemma RewriteNotIdempotent()
    ensures RewritePath("refs/heads/" + BranchRef + "main") == BranchRef + "main"
    ensures RewritePath(BranchRef + "main") == Branch + "main"
  {
    var e, m := "efs/heads/", "main";
    var once, twice := "refs/heads/" + BranchRef + m, BranchRef + m;
    RefsParts();
    NestedRefMiss();
    assert 'g' !in once && 'g' !in twice;
    Untouched(once, GithubOwner, GiteeOwner);
    Untouched(twice, GithubOwner, GiteeOwner);
    MissThenHit('r', e, m, BranchRef, Branch);
    HitThenCopy(m, BranchRef, Branch);
  }
}
