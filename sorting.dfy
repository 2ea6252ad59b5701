/**
 * A stable sort into descending key order, as `Array.prototype.sort` with
 * a comparator `(a, b) => key(b) - key(a)` performs it: the specification
 * is insertion sort, which puts each element after every earlier element
 * whose key is at least its own, and an in-place insertion sort on an array
 * is proved to compute it.
 */
module Sorting {

  /** Keys never increase along `s`. */
  ghost predicate SortedDesc<T>(s: seq<T>, key: T -> real)
  {
    forall i, j :: 0 <= i < j < |s| ==> key(s[i]) >= key(s[j])
  }

  /** Insert `x` into `s` after the leading elements whose key is at least `key(x)`. */
  function Insert<T>(s: seq<T>, x: T, key: T -> real): (r: seq<T>)
    ensures |r| == |s| + 1
  {
    if s == [] then [x]
    else if key(s[0]) >= key(x) then [s[0]] + Insert(s[1..], x, key)
    else [x] + s
  }

  /** The stable descending sort: each element, in input order, inserted after its equals. */
  function SortDesc<T>(s: seq<T>, key: T -> real): (r: seq<T>)
    ensures |r| == |s|
  {
    if s == [] then []
    else Insert(SortDesc(s[..|s| - 1], key), s[|s| - 1], key)
  }

  /** Insertion adds exactly `x` to the elements of `s`. */
  lemma {:induction false} InsertPermutes<T>(s: seq<T>, x: T, key: T -> real)
    ensures multiset(Insert(s, x, key)) == multiset(s) + multiset{x}
  {
    if s != [] && key(s[0]) >= key(x) {
      InsertPermutes(s[1..], x, key);
      assert s == [s[0]] + s[1..];
    }
  }

  /** The sort is a permutation of its input. */
  lemma {:induction false} SortDescPermutes<T>(s: seq<T>, key: T -> real)
    ensures multiset(SortDesc(s, key)) == multiset(s)
  {
    if s != [] {
      var front := s[..|s| - 1];
      SortDescPermutes(front, key);
      InsertPermutes(SortDesc(front, key), s[|s| - 1], key);
      assert s == front + [s[|s| - 1]];
    }
  }

  lemma {:induction false} InsertSorted<T>(s: seq<T>, x: T, key: T -> real)
    requires SortedDesc(s, key)
    ensures SortedDesc(Insert(s, x, key), key)
  {
    if s != [] && key(s[0]) >= key(x) {
      InsertSorted(s[1..], x, key);
      var r := Insert(s, x, key);
      var t := Insert(s[1..], x, key);
      assert r == [s[0]] + t;
      InsertPermutes(s[1..], x, key);
      forall j | 0 < j < |r| ensures key(r[0]) >= key(r[j]) {
        assert r[j] in multiset(t);
        if r[j] == x {
        } else {
          assert r[j] in multiset(s[1..]);
          var m :| 0 <= m < |s[1..]| && s[1..][m] == r[j];
          assert s[m + 1] == r[j];
        }
      }
    }
  }

  /** The sort's output is in descending key order. */
  lemma {:induction false} SortDescSorted<T>(s: seq<T>, key: T -> real)
    ensures SortedDesc(SortDesc(s, key), key)
  {
    if s != [] {
      SortDescSorted(s[..|s| - 1], key);
      InsertSorted(SortDesc(s[..|s| - 1], key), s[|s| - 1], key);
    }
  }

  /** The elements of `s` whose key is `v`, in order. */
  function WithKey<T>(s: seq<T>, key: T -> real, v: real): (r: seq<T>)
    ensures |r| <= |s|
  {
    if s == [] then []
    else (if key(s[0]) == v then [s[0]] else []) + WithKey(s[1..], key, v)
  }

  lemma {:induction false} WithKeyAppend<T>(s: seq<T>, t: seq<T>, key: T -> real, v: real)
    ensures WithKey(s + t, key, v) == WithKey(s, key, v) + WithKey(t, key, v)
  {
    if s == [] {
      assert s + t == t;
    } else {
      var head := if key(s[0]) == v then [s[0]] else [];
      assert (s + t)[0] == s[0] && (s + t)[1..] == s[1..] + t;
      assert WithKey(s + t, key, v) == head + WithKey(s[1..] + t, key, v);
      assert WithKey(s, key, v) == head + WithKey(s[1..], key, v);
      WithKeyAppend(s[1..], t, key, v);
      assert head + (WithKey(s[1..], key, v) + WithKey(t, key, v)) ==
             (head + WithKey(s[1..], key, v)) + WithKey(t, key, v);
    }
  }

  lemma {:induction false} WithKeyNone<T>(s: seq<T>, key: T -> real, v: real)
    requires forall i :: 0 <= i < |s| ==> key(s[i]) < v
    ensures WithKey(s, key, v) == []
  {
    if s != [] {
      WithKeyNone(s[1..], key, v);
    }
  }

  lemma {:induction false} InsertWithKey<T>(s: seq<T>, x: T, key: T -> real, v: real)
    requires SortedDesc(s, key)
    ensures WithKey(Insert(s, x, key), key, v) ==
            WithKey(s, key, v) + (if key(x) == v then [x] else [])
  {
    if s == [] {
    } else if key(s[0]) >= key(x) {
      InsertWithKey(s[1..], x, key, v);
      WithKeyAppend([s[0]], Insert(s[1..], x, key), key, v);
      WithKeyAppend([s[0]], s[1..], key, v);
      assert [s[0]] + s[1..] == s;
    } else {
      WithKeyAppend([x], s, key, v);
      if key(x) == v {
        WithKeyNone(s, key, v);
      }
    }
  }

  /**
   * Stability: the elements that share a key keep their input order, so
   * ties come out in the order they went in.
   */
  lemma {:induction false} SortDescStable<T>(s: seq<T>, key: T -> real, v: real)
    ensures WithKey(SortDesc(s, key), key, v) == WithKey(s, key, v)
  {
    if s != [] {
      var front, last := s[..|s| - 1], s[|s| - 1];
      var sorted := SortDesc(front, key);
      var tail := if key(last) == v then [last] else [];
      assert SortDesc(s, key) == Insert(sorted, last, key);
      SortDescStable(front, key, v);
      SortDescSorted(front, key);
      InsertWithKey(sorted, last, key, v);
      assert WithKey(SortDesc(s, key), key, v) == WithKey(front, key, v) + tail;
      WithKeyAppend(front, [last], key, v);
      assert WithKey([last], key, v) == tail by {
        assert [last][1..] == [];
      }
      assert front + [last] == s;
    }
  }

  /**
   * A comparator that always answers 0 leaves the order alone: with a
   * constant key the stable sort is the identity.
   */
  lemma {:induction false} SortDescConstantKey<T>(s: seq<T>, key: T -> real, c: real)
    requires forall x :: key(x) == c
    ensures SortDesc(s, key) == s
  {
    if s != [] {
      var front, last := s[..|s| - 1], s[|s| - 1];
      SortDescConstantKey(front, key, c);
      InsertAt(front, last, key, |front|);
      assert front[..|front|] == front && front[|front|..] == [];
      assert front + [last] == s;
    }
  }

  /** `a` is `b` with some elements left out. */
  predicate SubsequenceOf<T(==)>(a: seq<T>, b: seq<T>)
    decreases |b|
  {
    if a == [] then true
    else if b == [] then false
    else (a[0] == b[0] && SubsequenceOf(a[1..], b[1..])) || SubsequenceOf(a, b[1..])
  }

  /** Every element of a subsequence comes from the sequence, at a position no earlier than its own. */
  lemma {:induction false} SubsequenceElements<T>(a: seq<T>, b: seq<T>)
    requires SubsequenceOf(a, b)
    ensures |a| <= |b|
    ensures forall i :: 0 <= i < |a| ==> a[i] in b
  {
    if a != [] {
      if a[0] == b[0] && SubsequenceOf(a[1..], b[1..]) {
        SubsequenceElements(a[1..], b[1..]);
        forall i | 0 < i < |a| ensures a[i] in b {
          assert a[i] == a[1..][i - 1];
        }
      } else {
        SubsequenceElements(a, b[1..]);
      }
    }
  }

  /** Leaving elements out of a sorted sequence keeps it sorted. */
  lemma {:induction false} SubsequenceSorted<T>(a: seq<T>, b: seq<T>, key: T -> real)
    requires SubsequenceOf(a, b) && SortedDesc(b, key)
    ensures SortedDesc(a, key)
  {
    if a != [] {
      assert SortedDesc(b[1..], key) by {
        forall i, j | 0 <= i < j < |b[1..]| ensures key(b[1..][i]) >= key(b[1..][j]) {
          assert b[1..][i] == b[i + 1] && b[1..][j] == b[j + 1];
        }
      }
      if a[0] == b[0] && SubsequenceOf(a[1..], b[1..]) {
        SubsequenceSorted(a[1..], b[1..], key);
        SubsequenceElements(a[1..], b[1..]);
        forall j | 0 < j < |a| ensures key(a[0]) >= key(a[j]) {
          assert a[j] == a[1..][j - 1];
          var m :| 0 <= m < |b[1..]| && b[1..][m] == a[j];
          assert b[m + 1] == a[j];
        }
      } else {
        SubsequenceSorted(a, b[1..], key);
      }
    }
  }

  /** Leaving elements out keeps the relative order of the gems that share a score. */
  lemma {:induction false} SubsequenceWithKey<T>(a: seq<T>, b: seq<T>, key: T -> real, v: real)
    requires SubsequenceOf(a, b)
    ensures SubsequenceOf(WithKey(a, key, v), WithKey(b, key, v))
    decreases |b|
  {
    if a != [] {
      if a[0] == b[0] && SubsequenceOf(a[1..], b[1..]) {
        SubsequenceWithKey(a[1..], b[1..], key, v);
        if key(a[0]) == v {
          var wa, wb := WithKey(a, key, v), WithKey(b, key, v);
          assert wa[0] == wb[0] && wa[1..] == WithKey(a[1..], key, v) && wb[1..] == WithKey(b[1..], key, v);
        } else {
          assert WithKey(a, key, v) == WithKey(a[1..], key, v);
          assert WithKey(b, key, v) == WithKey(b[1..], key, v);
        }
      } else {
        SubsequenceWithKey(a, b[1..], key, v);
        if key(b[0]) == v {
          SubsequenceDropFirst(WithKey(a, key, v), WithKey(b, key, v));
        } else {
          assert WithKey(b, key, v) == WithKey(b[1..], key, v);
        }
      }
    }
  }

  /** Leaving elements out twice is leaving elements out once. */
  lemma {:induction false} SubsequenceTrans<T>(a: seq<T>, b: seq<T>, c: seq<T>)
    requires SubsequenceOf(a, b) && SubsequenceOf(b, c)
    ensures SubsequenceOf(a, c)
    decreases |c|
  {
    if a != [] {
      if b[0] == c[0] && SubsequenceOf(b[1..], c[1..]) {
        if a[0] == b[0] && SubsequenceOf(a[1..], b[1..]) {
          SubsequenceTrans(a[1..], b[1..], c[1..]);
        } else {
          SubsequenceTrans(a, b[1..], c[1..]);
        }
      } else {
        SubsequenceTrans(a, b, c[1..]);
      }
    }
  }

  lemma {:induction false} SubsequenceDropFirst<T>(a: seq<T>, b: seq<T>)
    requires b != [] && SubsequenceOf(a, b[1..])
    ensures SubsequenceOf(a, b)
  {
  }

  /** Inserting at the boundary between the keys at least `key(x)` and the smaller ones. */
  lemma {:induction false} InsertAt<T>(s: seq<T>, x: T, key: T -> real, p: nat)
    requires p <= |s|
    requires forall k :: 0 <= k < p ==> key(s[k]) >= key(x)
    requires forall k :: p <= k < |s| ==> key(s[k]) < key(x)
    ensures Insert(s, x, key) == s[..p] + [x] + s[p..]
  {
    if p > 0 {
      var t := s[1..];
      forall k | 0 <= k < p - 1 ensures key(t[k]) >= key(x) {
        assert t[k] == s[k + 1];
      }
      forall k | p - 1 <= k < |t| ensures key(t[k]) < key(x) {
        assert t[k] == s[k + 1];
      }
      InsertAt(t, x, key, p - 1);
      assert Insert(s, x, key) == [s[0]] + Insert(t, x, key);
      assert s[..p] == [s[0]] + t[..p - 1];
      assert s[p..] == t[p - 1..];
      assert [s[0]] + (t[..p - 1] + [x] + t[p - 1..]) == ([s[0]] + t[..p - 1]) + [x] + t[p - 1..];
    } else if s != [] {
      assert key(s[0]) < key(x);
      assert s[..p] == [] && s[p..] == s;
    }
  }

  /**
   * One step of insertion sort: `a[i]` moves left past the elements of the
   * sorted prefix `a[..i]` whose key is smaller than its own.
   */
  method InsertInPlace<T>(a: array<T>, i: nat, key: T -> real)
    requires i < a.Length && SortedDesc(a[..i], key)
    modifies a
    ensures a[..i + 1] == Insert(old(a[..i]), old(a[i]), key)
    ensures a[i + 1..] == old(a[i + 1..])
  {
    ghost var prefix := a[..i];
    var x := a[i];
    var j := i;
    while j > 0 && key(a[j - 1]) < key(x)
      invariant 0 <= j <= i
      invariant forall k :: 0 <= k < j ==> a[k] == prefix[k]
      invariant forall k :: j < k <= i ==> a[k] == prefix[k - 1]
      invariant forall k :: i < k < a.Length ==> a[k] == old(a[k])
      invariant forall k :: j <= k < i ==> key(prefix[k]) < key(x)
    {
      a[j] := a[j - 1];
      j := j - 1;
    }
    a[j] := x;
    assert j > 0 ==> key(prefix[j - 1]) >= key(x);
    Shifted(a[..i + 1], prefix, x, key, j);
    assert a[i + 1..] == old(a[i + 1..]);
  }

  lemma Shifted<T>(s: seq<T>, prefix: seq<T>, x: T, key: T -> real, j: nat)
    requires |s| == |prefix| + 1 && j <= |prefix| && SortedDesc(prefix, key)
    requires forall k :: 0 <= k < j ==> s[k] == prefix[k]
    requires s[j] == x
    requires forall k :: j < k < |s| ==> s[k] == prefix[k - 1]
    requires forall k :: j <= k < |prefix| ==> key(prefix[k]) < key(x)
    requires j > 0 ==> key(prefix[j - 1]) >= key(x)
    ensures s == Insert(prefix, x, key)
  {
    forall k | 0 <= k < j ensures key(prefix[k]) >= key(x) {
      assert key(prefix[k]) >= key(prefix[j - 1]);
    }
    InsertAt(prefix, x, key, j);
    var r := prefix[..j] + [x] + prefix[j..];
    assert |r| == |s|;
    forall k | 0 <= k < |s| ensures s[k] == r[k] {
      if k < j {
        assert r[k] == prefix[..j][k];
      } else if k > j {
        assert r[k] == prefix[j..][k - j - 1];
      }
    }
    assert s == r;
  }

  /**
   * `array.sort((a, b) => key(b) - key(a))` on the whole array, in place:
   * insertion sort.
   */
  method SortDescInPlace<T>(a: array<T>, key: T -> real)
    modifies a
    ensures a[..] == SortDesc(old(a[..]), key)
  {
    ghost var input := a[..];
    var i := 0;
    while i < a.Length
      invariant 0 <= i <= a.Length
      invariant a[..i] == SortDesc(input[..i], key)
      invariant forall k :: i <= k < a.Length ==> a[k] == input[k]
    {
      SortDescSorted(input[..i], key);
      ghost var before := a[..];
      InsertInPlace(a, i, key);
      SortStep(input, before, a[..], i, key);
      i := i + 1;
    }
    assert a[..] == a[..a.Length];
    assert input[..a.Length] == input;
  }

  lemma SortStep<T>(input: seq<T>, before: seq<T>, after: seq<T>, i: nat, key: T -> real)
    requires i < |input| == |before| == |after|
    requires before[..i] == SortDesc(input[..i], key)
    requires forall k :: i <= k < |before| ==> before[k] == input[k]
    requires after[..i + 1] == Insert(before[..i], before[i], key)
    requires after[i + 1..] == before[i + 1..]
    ensures after[..i + 1] == SortDesc(input[..i + 1], key)
    ensures forall k :: i + 1 <= k < |after| ==> after[k] == input[k]
  {
    assert input[..i + 1][..i] == input[..i];
    forall k | i + 1 <= k < |after| ensures after[k] == input[k] {
      assert after[k] == after[i + 1..][k - i - 1];
    }
  }
}
