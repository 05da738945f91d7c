/**
  * Python's `<` on lists of integers, and its stable `list.sort(key=…, reverse=True)`.
  *
  * The key function is a parameter; Python calls it once per item, which for a
  * pure key is the same as calling it at each comparison. `reverse=True` keeps
  * the sort stable: items whose keys are equal stay in the order they had.
  */
module Ordering {

  type Key = seq<int>

  /**
    * Python's `a < b` on lists of ints: lexicographic, a proper prefix being
    * the smaller. Nothing is below the empty list, and it is below every
    * other list.
    */
  predicate Less(a: Key, b: Key)
    ensures Less(a, b) ==> |b| > 0
    ensures |a| == 0 && |b| > 0 ==> Less(a, b)
    decreases |a|
  {
    if |a| == 0 then |b| > 0
    else |b| > 0 && (a[0] < b[0] || (a[0] == b[0] && Less(a[1..], b[1..])))
  }

  /**
    * `Less` is the lexicographic order: `a` is a proper prefix of `b`, or the
    * two first differ at an index where `a` holds the smaller number.
    */
  lemma {:induction false} LessCharacterized(a: Key, b: Key)
    ensures Less(a, b) <==>
      (|a| < |b| && a == b[..|a|]) ||
      exists k :: 0 <= k < |a| && k < |b| && a[..k] == b[..k] && a[k] < b[k]
    decreases |a|
  {
    if |a| > 0 && |b| > 0 {
      if a[0] < b[0] {
        assert a[..0] == b[..0];
      } else if a[0] == b[0] {
        var a', b' := a[1..], b[1..];
        LessCharacterized(a', b');
        if |a| < |b| {
          assert a == b[..|a|] <==> a' == b'[..|a'|] by {
            if a' == b'[..|a'|] {
              assert a == [a[0]] + a' && b[..|a|] == [b[0]] + b'[..|a'|];
            }
          }
        }
        if exists k :: 0 <= k < |a'| && k < |b'| && a'[..k] == b'[..k] && a'[k] < b'[k] {
          var k :| 0 <= k < |a'| && k < |b'| && a'[..k] == b'[..k] && a'[k] < b'[k];
          assert a[..k + 1] == [a[0]] + a'[..k] && b[..k + 1] == [b[0]] + b'[..k];
          assert a[k + 1] < b[k + 1];
        }
        if exists k :: 0 <= k < |a| && k < |b| && a[..k] == b[..k] && a[k] < b[k] {
          var k :| 0 <= k < |a| && k < |b| && a[..k] == b[..k] && a[k] < b[k];
          assert k > 0;
          assert a'[..k - 1] == a[..k][1..] && b'[..k - 1] == b[..k][1..];
          assert a'[k - 1] < b'[k - 1];
        }
      }
    }
  }

  lemma {:induction false} LessIrreflexive(a: Key)
    ensures !Less(a, a)
    decreases |a|
  {
    if |a| > 0 {
      LessIrreflexive(a[1..]);
    }
  }

  lemma {:induction false} LessTransitive(a: Key, b: Key, c: Key)
    requires Less(a, b) && Less(b, c)
    ensures Less(a, c)
    decreases |a|
  {
    if |a| > 0 && a[0] == b[0] && b[0] == c[0] {
      LessTransitive(a[1..], b[1..], c[1..]);
    }
  }

  /** Any two different keys are ordered one way or the other. */
  lemma {:induction false} LessTotal(a: Key, b: Key)
    ensures a == b || Less(a, b) || Less(b, a)
    decreases |a|
  {
    if |a| > 0 && |b| > 0 && a[0] == b[0] {
      LessTotal(a[1..], b[1..]);
      if a[1..] == b[1..] {
        assert a == [a[0]] + a[1..] && b == [b[0]] + b[1..];
      }
    }
  }

  lemma {:induction false} LessAsymmetric(a: Key, b: Key)
    requires Less(a, b)
    ensures !Less(b, a)
  {
    if Less(b, a) {
      LessTransitive(a, b, a);
      LessIrreflexive(a);
    }
  }

  /** No item has a smaller key than an item after it. */
  ghost predicate Descending<T>(xs: seq<T>, key: T -> Key) {
    forall i, j :: 0 <= i < j < |xs| ==> !Less(key(xs[i]), key(xs[j]))
  }

  /** The items whose key is `k`, in their order. */
  function WithKey<T>(xs: seq<T>, key: T -> Key, k: Key): seq<T> {
    if xs == [] then []
    else (if key(xs[0]) == k then [xs[0]] else []) + WithKey(xs[1..], key, k)
  }

  /** Puts `x` after every item whose key is not smaller than its own. */
  function Insert<T>(x: T, ys: seq<T>, key: T -> Key): (r: seq<T>)
    ensures |r| == |ys| + 1
  {
    if ys == [] then [x]
    else if Less(key(ys[0]), key(x)) then [x] + ys
    else [ys[0]] + Insert(x, ys[1..], key)
  }

  /** `sorted(xs, key=key, reverse=True)`: as many items as it was given. */
  function SortDescending<T>(xs: seq<T>, key: T -> Key): (r: seq<T>)
    ensures |r| == |xs|
  {
    if xs == [] then []
    else Insert(xs[|xs| - 1], SortDescending(xs[..|xs| - 1], key), key)
  }

  // ---------------------------------------------------------------------
  // Proofs
  // ---------------------------------------------------------------------

  lemma {:induction false} WithKeyAppend<T>(a: seq<T>, b: seq<T>, key: T -> Key, k: Key)
    ensures WithKey(a + b, key, k) == WithKey(a, key, k) + WithKey(b, key, k)
  {
    if a != [] {
      assert (a + b)[1..] == a[1..] + b;
      WithKeyAppend(a[1..], b, key, k);
    } else {
      assert a + b == b;
    }
  }

  lemma {:induction false} WithKeyNone<T>(xs: seq<T>, key: T -> Key, k: Key)
    requires forall i :: 0 <= i < |xs| ==> key(xs[i]) != k
    ensures WithKey(xs, key, k) == []
  {
    if xs != [] {
      WithKeyNone(xs[1..], key, k);
    }
  }

  lemma {:induction false} InsertMultiset<T>(x: T, ys: seq<T>, key: T -> Key)
    ensures multiset(Insert(x, ys, key)) == multiset(ys) + multiset{x}
  {
    if ys != [] && !Less(key(ys[0]), key(x)) {
      InsertMultiset(x, ys[1..], key);
      assert ys == [ys[0]] + ys[1..];
    }
  }

  /** An item whose key is larger than the first key of a descending list may go first. */
  lemma InsertFrontDescending<T>(x: T, ys: seq<T>, key: T -> Key)
    requires Descending(ys, key) && ys != [] && Less(key(ys[0]), key(x))
    ensures Descending([x] + ys, key)
  {
    var r := [x] + ys;
    forall i, j | 0 <= i < j < |r| ensures !Less(key(r[i]), key(r[j])) {
      if i == 0 {
        if j > 1 {
          if Less(key(x), key(ys[j - 1])) {
            LessTransitive(key(ys[0]), key(x), key(ys[j - 1]));
            assert false;
          }
        } else {
          LessAsymmetric(key(ys[0]), key(x));
        }
      } else {
        assert r[i] == ys[i - 1] && r[j] == ys[j - 1];
      }
    }
  }

  /** An item no smaller than everything in a descending list may go in front of it. */
  lemma ConsDescending<T>(y: T, zs: seq<T>, key: T -> Key)
    requires Descending(zs, key)
    requires forall z :: z in zs ==> !Less(key(y), key(z))
    ensures Descending([y] + zs, key)
  {
    var r := [y] + zs;
    forall i, j | 0 <= i < j < |r| ensures !Less(key(r[i]), key(r[j])) {
      if i == 0 {
        assert r[j] == zs[j - 1] && zs[j - 1] in zs;
      } else {
        assert r[i] == zs[i - 1] && r[j] == zs[j - 1];
      }
    }
  }

  lemma {:induction false} InsertDescending<T>(x: T, ys: seq<T>, key: T -> Key)
    requires Descending(ys, key)
    ensures Descending(Insert(x, ys, key), key)
  {
    if ys == [] {
    } else if Less(key(ys[0]), key(x)) {
      InsertFrontDescending(x, ys, key);
    } else {
      var tail := Insert(x, ys[1..], key);
      InsertDescending(x, ys[1..], key);
      InsertMultiset(x, ys[1..], key);
      forall z | z in tail ensures !Less(key(ys[0]), key(z)) {
        assert z in multiset(tail);
        if z != x {
          assert z in ys[1..];
          var m :| 1 <= m < |ys| && ys[m] == z;
        }
      }
      ConsDescending(ys[0], tail, key);
    }
  }

  /** An item going in front of a descending list shares its key with none of the list's items. */
  lemma InsertFrontWithKey<T>(x: T, ys: seq<T>, key: T -> Key, k: Key)
    requires Descending(ys, key) && ys != [] && Less(key(ys[0]), key(x))
    ensures WithKey(Insert(x, ys, key), key, k) == WithKey(ys, key, k) + (if key(x) == k then [x] else [])
  {
    var r := [x] + ys;
    assert Insert(x, ys, key) == r;
    assert r[1..] == ys;
    assert WithKey(r, key, k) == (if key(x) == k then [x] else []) + WithKey(ys, key, k);
    if key(x) == k {
      forall i | 0 <= i < |ys| ensures key(ys[i]) != k {
        if i == 0 {
          LessIrreflexive(k);
        } else {
          assert !Less(key(ys[0]), key(ys[i]));
        }
      }
      WithKeyNone(ys, key, k);
    }
  }

  lemma {:induction false} InsertWithKey<T>(x: T, ys: seq<T>, key: T -> Key, k: Key)
    requires Descending(ys, key)
    ensures WithKey(Insert(x, ys, key), key, k) == WithKey(ys, key, k) + (if key(x) == k then [x] else [])
  {
    if ys == [] {
    } else if Less(key(ys[0]), key(x)) {
      InsertFrontWithKey(x, ys, key, k);
    } else {
      var tail := Insert(x, ys[1..], key);
      var r := [ys[0]] + tail;
      assert Insert(x, ys, key) == r;
      assert Descending(ys[1..], key);
      InsertWithKey(x, ys[1..], key, k);
      assert r[1..] == tail;
      assert WithKey(r, key, k) == (if key(ys[0]) == k then [ys[0]] else []) + WithKey(tail, key, k);
    }
  }

  /** The sort leaves no item with a smaller key before one with a larger key. */
  lemma {:induction false} SortDescendingSorted<T>(xs: seq<T>, key: T -> Key)
    ensures Descending(SortDescending(xs, key), key)
  {
    if xs != [] {
      SortDescendingSorted(xs[..|xs| - 1], key);
      InsertDescending(xs[|xs| - 1], SortDescending(xs[..|xs| - 1], key), key);
    }
  }

  /** The sort rearranges the items and does nothing else. */
  lemma {:induction false} SortDescendingPermutation<T>(xs: seq<T>, key: T -> Key)
    ensures multiset(SortDescending(xs, key)) == multiset(xs)
  {
    if xs != [] {
      var init, last := xs[..|xs| - 1], xs[|xs| - 1];
      SortDescendingPermutation(init, key);
      InsertMultiset(last, SortDescending(init, key), key);
      assert xs == init + [last];
    }
  }

  /** The sort is stable: the items sharing a key keep their order. */
  lemma {:induction false} SortDescendingStable<T>(xs: seq<T>, key: T -> Key, k: Key)
    ensures WithKey(SortDescending(xs, key), key, k) == WithKey(xs, key, k)
  {
    if xs != [] {
      var init, last := xs[..|xs| - 1], xs[|xs| - 1];
      SortDescendingStable(init, key, k);
      SortDescendingSorted(init, key);
      InsertWithKey(last, SortDescending(init, key), key, k);
      assert xs == init + [last];
      WithKeyAppend(init, [last], key, k);
    }
  }

  lemma {:induction false} WithKeyMember<T>(xs: seq<T>, key: T -> Key, k: Key, x: T)
    requires x in WithKey(xs, key, k)
    ensures x in xs && key(x) == k
  {
    if xs != [] && (x != xs[0] || key(xs[0]) != k) {
      WithKeyMember(xs[1..], key, k, x);
    }
  }

  lemma WithKeyHead<T>(xs: seq<T>, key: T -> Key)
    requires xs != []
    ensures WithKey(xs, key, key(xs[0])) != []
  {
  }

  /** Two descending arrangements that agree, key by key, on the order of the items are the same. */
  lemma {:induction false} DescendingUnique<T>(a: seq<T>, b: seq<T>, key: T -> Key)
    requires Descending(a, key) && Descending(b, key)
    requires forall k :: WithKey(a, key, k) == WithKey(b, key, k)
    ensures a == b
    decreases |a| + |b|
  {
    if a != [] {
      WithKeyHead(a, key);
    }
    if b != [] {
      WithKeyHead(b, key);
    }
    if a != [] && b != [] {
      var k0 := key(a[0]);
      FirstKeysAgree(a, b, key);
      FirstKeysAgree(b, a, key);
      LessTotal(key(a[0]), key(b[0]));
      assert WithKey(a, key, k0) == [a[0]] + WithKey(a[1..], key, k0);
      assert WithKey(b, key, k0) == [b[0]] + WithKey(b[1..], key, k0);
      assert key(b[0]) == k0;
      assert WithKey(a, key, k0) == WithKey(b, key, k0);
      assert ([a[0]] + WithKey(a[1..], key, k0))[0] == a[0];
      assert ([b[0]] + WithKey(b[1..], key, k0))[0] == b[0];
      forall k ensures WithKey(a[1..], key, k) == WithKey(b[1..], key, k) {
        var h := if k0 == k then [a[0]] else [];
        assert WithKey(a, key, k) == h + WithKey(a[1..], key, k);
        assert WithKey(b, key, k) == h + WithKey(b[1..], key, k);
        assert WithKey(a, key, k) == WithKey(b, key, k);
        assert WithKey(a[1..], key, k) == (h + WithKey(a[1..], key, k))[|h|..];
        assert WithKey(b[1..], key, k) == (h + WithKey(b[1..], key, k))[|h|..];
      }
      DescendingUnique(a[1..], b[1..], key);
      assert a == [a[0]] + a[1..] && b == [b[0]] + b[1..];
    }
  }

  /** The first key of a descending list is not below the first key of another with the same items per key. */
  lemma FirstKeysAgree<T>(a: seq<T>, b: seq<T>, key: T -> Key)
    requires Descending(a, key) && a != [] && b != []
    requires forall k :: WithKey(a, key, k) == WithKey(b, key, k)
    ensures !Less(key(a[0]), key(b[0]))
  {
    var kb := key(b[0]);
    assert b[0] in WithKey(b, key, kb);
    WithKeyMember(a, key, kb, b[0]);
    var m :| 0 <= m < |a| && a[m] == b[0];
    if m > 0 {
      assert !Less(key(a[0]), key(a[m]));
    } else {
      LessIrreflexive(kb);
    }
  }

  /**
    * `SortDescending` is the only arrangement that is descending and keeps the
    * order of the items sharing a key: what Python's stable sort promises
    * determines its result.
    */
  lemma SortDescendingCharacterized<T>(xs: seq<T>, ys: seq<T>, key: T -> Key)
    requires Descending(ys, key)
    requires forall k :: WithKey(ys, key, k) == WithKey(xs, key, k)
    ensures ys == SortDescending(xs, key)
  {
    SortDescendingSorted(xs, key);
    forall k ensures WithKey(ys, key, k) == WithKey(SortDescending(xs, key), key, k) {
      SortDescendingStable(xs, key, k);
    }
    DescendingUnique(ys, SortDescending(xs, key), key);
  }

  // ---------------------------------------------------------------------
  // Sorting images, and duplicates
  // ---------------------------------------------------------------------

  /** `[f(x) for x in xs]`. */
  function Apply<A, B>(f: A -> B, xs: seq<A>): (r: seq<B>)
    ensures |r| == |xs| && forall i :: 0 <= i < |xs| ==> r[i] == f(xs[i])
  {
    seq(|xs|, i requires 0 <= i < |xs| => f(xs[i]))
  }

  lemma ApplyAppend<A, B>(f: A -> B, a: seq<A>, b: seq<A>)
    ensures Apply(f, a + b) == Apply(f, a) + Apply(f, b)
  {
    assert forall i :: 0 <= i < |a + b| ==> Apply(f, a + b)[i] == (Apply(f, a) + Apply(f, b))[i];
  }

  /** No item occurs twice. */
  ghost predicate NoDuplicates<T>(xs: seq<T>) {
    forall i, j :: 0 <= i < j < |xs| ==> xs[i] != xs[j]
  }

  lemma {:induction false} InsertApply<A, B>(x: A, ys: seq<A>, f: A -> B, keyA: A -> Key, keyB: B -> Key)
    requires forall a :: keyA(a) == keyB(f(a))
    ensures Insert(f(x), Apply(f, ys), keyB) == Apply(f, Insert(x, ys, keyA))
  {
    if ys == [] {
    } else if Less(keyA(ys[0]), keyA(x)) {
      assert Apply(f, [x] + ys) == [f(x)] + Apply(f, ys);
    } else {
      InsertApply(x, ys[1..], f, keyA, keyB);
      assert Apply(f, ys)[1..] == Apply(f, ys[1..]);
      assert Apply(f, [ys[0]] + Insert(x, ys[1..], keyA)) == [f(ys[0])] + Apply(f, Insert(x, ys[1..], keyA));
    }
  }

  /**
    * Sorting the images of items by a key equals the images of the items sorted
    * by the key of their image: sorting dictionary keys and then looking them up
    * orders the entries as sorting the entries themselves would.
    */
  lemma {:induction false} SortApply<A, B>(xs: seq<A>, f: A -> B, keyA: A -> Key, keyB: B -> Key)
    requires forall a :: keyA(a) == keyB(f(a))
    ensures SortDescending(Apply(f, xs), keyB) == Apply(f, SortDescending(xs, keyA))
  {
    if xs != [] {
      var init := xs[..|xs| - 1];
      SortApply(init, f, keyA, keyB);
      assert Apply(f, xs)[..|xs| - 1] == Apply(f, init);
      InsertApply(xs[|xs| - 1], SortDescending(init, keyA), f, keyA, keyB);
    }
  }

  lemma {:induction false} InsertNoDuplicates<T>(x: T, ys: seq<T>, key: T -> Key)
    requires NoDuplicates(ys) && x !in ys
    ensures NoDuplicates(Insert(x, ys, key))
  {
    if ys != [] && !Less(key(ys[0]), key(x)) {
      InsertNoDuplicates(x, ys[1..], key);
      InsertMultiset(x, ys[1..], key);
      var tail := Insert(x, ys[1..], key);
      forall k | 0 <= k < |ys| - 1 ensures ys[1..][k] != ys[0] {
        assert ys[1..][k] == ys[k + 1];
      }
      assert ys[0] !in multiset(tail);
      var r := [ys[0]] + tail;
      forall i, j | 0 <= i < j < |r| ensures r[i] != r[j] {
        if i == 0 {
          assert r[j] == tail[j - 1];
        } else {
          assert r[i] == tail[i - 1] && r[j] == tail[j - 1];
        }
      }
    }
  }

  /** Sorting a list without duplicates yields one without duplicates. */
  lemma {:induction false} SortNoDuplicates<T>(xs: seq<T>, key: T -> Key)
    requires NoDuplicates(xs)
    ensures NoDuplicates(SortDescending(xs, key))
  {
    if xs != [] {
      var init, last := xs[..|xs| - 1], xs[|xs| - 1];
      SortNoDuplicates(init, key);
      SortDescendingPermutation(init, key);
      forall k | 0 <= k < |init| ensures init[k] != last {
        assert init[k] == xs[k];
      }
      assert last !in multiset(SortDescending(init, key));
      InsertNoDuplicates(last, SortDescending(init, key), key);
    }
  }
}
