/** Go's string order, and sorting by an order that tells the elements apart.

    Go compares strings byte by byte; UTF-8 keeps the order of code points, so the order on
    sequences of `char` is the same one.  `sort.Slice` leaves its algorithm open, but with
    distinct keys the sorted permutation is unique (`SortedPermutationIsUnique`), so every use of it
    below is written as the insertion sort `Sort`. */
module Ordering {

  predicate StrLess(a: string, b: string) {
    if b == "" then false
    else if a == "" then true
    else a[0] < b[0] || (a[0] == b[0] && StrLess(a[1..], b[1..]))
  }

  lemma {:induction false} StrLessIrreflexive(a: string)
    ensures !StrLess(a, a)
  {
    if a != "" { StrLessIrreflexive(a[1..]); }
  }

  lemma {:induction false} StrLessTransitive(a: string, b: string, c: string)
    requires StrLess(a, b) && StrLess(b, c)
    ensures StrLess(a, c)
  {
    if a != "" && a[0] == b[0] == c[0] {
      StrLessTransitive(a[1..], b[1..], c[1..]);
    }
  }

  lemma {:induction false} StrLessTotal(a: string, b: string)
    ensures a == b || StrLess(a, b) || StrLess(b, a)
  {
    if a != "" && b != "" && a[0] == b[0] {
      StrLessTotal(a[1..], b[1..]);
      assert a == [a[0]] + a[1..] && b == [b[0]] + b[1..];
    }
  }

  /** `m` is where one text first parts from a greater one: at its end, or at a smaller character. */
  predicate PartsAt(a: string, b: string, m: nat) {
    m <= |a| && m < |b| && a[..m] == b[..m] && (m == |a| || a[m] < b[m])
  }

  /** The order is the lexicographic one: a proper prefix comes first, and otherwise the first difference
      decides. */
  lemma {:induction false} StrLessMeans(a: string, b: string)
    ensures StrLess(a, b) <==> exists m: nat :: PartsAt(a, b, m)
  {
    if a != "" && b != "" && a[0] == b[0] {
      StrLessMeans(a[1..], b[1..]);
      if m: nat :| PartsAt(a[1..], b[1..], m) {
        assert a[..m + 1] == [a[0]] + a[1..][..m] && b[..m + 1] == [b[0]] + b[1..][..m];
        assert PartsAt(a, b, m + 1);
      }
      if m: nat :| PartsAt(a, b, m) {
        assert m > 0;
        assert a[1..][..m - 1] == a[..m][1..] && b[1..][..m - 1] == b[..m][1..];
        assert PartsAt(a[1..], b[1..], m - 1);
      }
    } else if b != "" && (a == "" || a[0] < b[0]) {
      assert PartsAt(a, b, 0);
    }
  }

  lemma StrLessAsymmetric(a: string, b: string)
    requires StrLess(a, b)
    ensures !StrLess(b, a)
  {
    if StrLess(b, a) {
      StrLessTransitive(a, b, a);
      StrLessIrreflexive(a);
    }
  }

  /** A prefix of equal length decides before the rest does. */
  lemma {:induction false} StrLessConcat(a: string, b: string, c: string, d: string)
    requires |a| == |b|
    ensures StrLess(a + c, b + d) <==> StrLess(a, b) || (a == b && StrLess(c, d))
  {
    if a == "" {
      assert a + c == c && b + d == d;
    } else {
      assert (a + c)[1..] == a[1..] + c && (b + d)[1..] == b[1..] + d;
      StrLessConcat(a[1..], b[1..], c, d);
      assert a == [a[0]] + a[1..] && b == [b[0]] + b[1..];
    }
  }

  lemma ConcatInjective(a: string, b: string, c: string, d: string)
    requires |a| == |b|
    ensures a + c == b + d <==> a == b && c == d
  {
    if a + c == b + d {
      assert (a + c)[..|a|] == a && (b + d)[..|b|] == b;
      assert (a + c)[|a|..] == c && (b + d)[|b|..] == d;
    }
  }

  ghost predicate FreeOf(c: char, s: string) { c !in s }

  /** Splitting at the first separator is unambiguous. */
  lemma {:induction false} CutIsUnique(c: char, a: string, b: string, p: string, q: string)
    requires FreeOf(c, a) && FreeOf(c, b)
    requires p == "" || p[0] == c
    requires q == "" || q[0] == c
    requires a + p == b + q
    ensures a == b && p == q
  {
    assert a != "" ==> (a + p)[0] == a[0] && a[0] in a;
    assert b != "" ==> (b + q)[0] == b[0] && b[0] in b;
    assert a == "" ==> a + p == p;
    assert b == "" ==> b + q == q;
    if a != "" && b != "" {
      assert a + p == [a[0]] + (a[1..] + p) && b + q == [b[0]] + (b[1..] + q);
      assert (a + p)[1..] == a[1..] + p && (b + q)[1..] == b[1..] + q;
      CutIsUnique(c, a[1..], b[1..], p, q);
      assert a == [a[0]] + a[1..] && b == [b[0]] + b[1..];
    }
  }

  predicate PairLess(a: (string, string), b: (string, string)) {
    StrLess(a.0, b.0) || (a.0 == b.0 && StrLess(a.1, b.1))
  }

  lemma PairLessTransitive(a: (string, string), b: (string, string), c: (string, string))
    requires PairLess(a, b) && PairLess(b, c)
    ensures PairLess(a, c)
  {
    if StrLess(a.0, b.0) && StrLess(b.0, c.0) {
      StrLessTransitive(a.0, b.0, c.0);
    } else if a.0 == b.0 == c.0 {
      StrLessTransitive(a.1, b.1, c.1);
    }
  }

  ghost predicate StrictOrder<T(!new)>(less: (T, T) -> bool) {
    && (forall x :: !less(x, x))
    && (forall x, y, z :: less(x, y) && less(y, z) ==> less(x, z))
  }

  function ByKey<T>(key: T -> string): (T, T) -> bool {
    (x, y) => StrLess(key(x), key(y))
  }

  function ByPair<T>(key: T -> (string, string)): (T, T) -> bool {
    (x, y) => PairLess(key(x), key(y))
  }

  lemma ByKeyIsStrictOrder<T(!new)>(key: T -> string)
    ensures StrictOrder(ByKey(key))
  {
    var less := ByKey(key);
    forall x ensures !less(x, x) { StrLessIrreflexive(key(x)); }
    forall x, y, z | less(x, y) && less(y, z) ensures less(x, z) {
      StrLessTransitive(key(x), key(y), key(z));
    }
  }

  lemma ByPairIsStrictOrder<T(!new)>(key: T -> (string, string))
    ensures StrictOrder(ByPair(key))
  {
    var less := ByPair(key);
    forall x ensures !less(x, x) {
      StrLessIrreflexive(key(x).0);
      StrLessIrreflexive(key(x).1);
    }
    forall x, y, z | less(x, y) && less(y, z) ensures less(x, z) {
      PairLessTransitive(key(x), key(y), key(z));
    }
  }

  lemma PairLessTotal(a: (string, string), b: (string, string))
    ensures a == b || PairLess(a, b) || PairLess(b, a)
  {
    StrLessTotal(a.0, b.0);
    StrLessTotal(a.1, b.1);
  }

  ghost predicate StrictlySorted<T(!new)>(less: (T, T) -> bool, s: seq<T>) {
    forall i, j :: 0 <= i < j < |s| ==> less(s[i], s[j])
  }

  /** Any two positions hold elements the order tells apart. */
  ghost predicate Distinguished<T(!new)>(less: (T, T) -> bool, s: seq<T>) {
    forall i, j :: 0 <= i < j < |s| ==> less(s[i], s[j]) || less(s[j], s[i])
  }

  /** One outer step of an insertion sort: `x` moves left past every greater element. */
  function Insert<T>(less: (T, T) -> bool, s: seq<T>, x: T): seq<T> {
    if s == [] || !less(x, s[|s| - 1]) then s + [x]
    else Insert(less, s[..|s| - 1], x) + [s[|s| - 1]]
  }

  function Sort<T>(less: (T, T) -> bool, s: seq<T>): seq<T> {
    if s == [] then [] else Insert(less, Sort(less, s[..|s| - 1]), s[|s| - 1])
  }

  lemma {:induction false} InsertPermutes<T>(less: (T, T) -> bool, s: seq<T>, x: T)
    ensures multiset(Insert(less, s, x)) == multiset(s) + multiset{x}
  {
    if s != [] && less(x, s[|s| - 1]) {
      InsertPermutes(less, s[..|s| - 1], x);
      assert s == s[..|s| - 1] + [s[|s| - 1]];
    }
  }

  lemma {:induction false} SortPermutes<T>(less: (T, T) -> bool, s: seq<T>)
    ensures multiset(Sort(less, s)) == multiset(s)
    ensures |Sort(less, s)| == |s|
  {
    if s != [] {
      SortPermutes(less, s[..|s| - 1]);
      InsertPermutes(less, Sort(less, s[..|s| - 1]), s[|s| - 1]);
      assert s == s[..|s| - 1] + [s[|s| - 1]];
    }
    assert |Sort(less, s)| == |multiset(Sort(less, s))| == |multiset(s)| == |s|;
  }

  lemma {:induction false} InsertKeepsSorted<T(!new)>(less: (T, T) -> bool, s: seq<T>, x: T)
    requires StrictOrder(less) && StrictlySorted(less, s)
    requires forall y :: y in s ==> less(x, y) || less(y, x)
    ensures StrictlySorted(less, Insert(less, s, x))
  {
    if s == [] {
    } else {
      var front, last := s[..|s| - 1], s[|s| - 1];
      if less(x, last) {
        InsertKeepsSorted(less, front, x);
        InsertPermutes(less, front, x);
        var inner := Insert(less, front, x);
        forall y | y in inner ensures less(y, last) {
          assert y in multiset(inner);
          if y != x {
            assert y in multiset(front);
            assert y in front;
          }
        }
      } else {
        forall y | y in s ensures less(y, x) {
          var i :| 0 <= i < |s| && s[i] == y;
          if i < |s| - 1 { assert less(s[i], last) && less(last, x); }
        }
      }
    }
  }

  lemma {:induction false} SortIsSorted<T(!new)>(less: (T, T) -> bool, s: seq<T>)
    requires StrictOrder(less) && Distinguished(less, s)
    ensures StrictlySorted(less, Sort(less, s))
  {
    if s != [] {
      var front, last := s[..|s| - 1], s[|s| - 1];
      SortIsSorted(less, front);
      SortPermutes(less, front);
      forall y | y in Sort(less, front) ensures less(last, y) || less(y, last) {
        assert y in multiset(Sort(less, front));
        assert y in front;
        var i :| 0 <= i < |front| && front[i] == y;
        assert s[i] == y && s[|s| - 1] == last;
      }
      InsertKeepsSorted(less, Sort(less, front), last);
    }
  }

  /** Strictly sorted permutations of each other are equal: the outcome of a sort with distinct
      keys does not depend on the algorithm. */
  lemma {:induction false} SortedPermutationIsUnique<T(!new)>(less: (T, T) -> bool, s: seq<T>, t: seq<T>)
    requires StrictOrder(less) && StrictlySorted(less, s) && StrictlySorted(less, t)
    requires multiset(s) == multiset(t)
    ensures s == t
  {
    if s == [] || t == [] {
      assert |s| == |multiset(s)| == |multiset(t)| == |t|;
    } else {
      SortedHeadsAgree(less, s, t);
      assert s == [s[0]] + s[1..] && t == [t[0]] + t[1..];
      assert multiset(s[1..]) == multiset(s) - multiset{s[0]};
      assert multiset(t[1..]) == multiset(t) - multiset{t[0]};
      SortedPermutationIsUnique(less, s[1..], t[1..]);
    }
  }

  lemma SortedHeadsAgree<T(!new)>(less: (T, T) -> bool, s: seq<T>, t: seq<T>)
    requires StrictOrder(less) && StrictlySorted(less, s) && StrictlySorted(less, t)
    requires multiset(s) == multiset(t) && s != [] && t != []
    ensures s[0] == t[0]
  {
    assert s[0] in multiset(t) && t[0] in multiset(s);
    var i :| 0 <= i < |t| && t[i] == s[0];
    var j :| 0 <= j < |s| && s[j] == t[0];
  }

  /** A sequence already in order is left alone. */
  lemma SortOfSorted<T(!new)>(less: (T, T) -> bool, s: seq<T>)
    requires StrictOrder(less) && StrictlySorted(less, s)
    ensures Sort(less, s) == s
  {
    SortIsSorted(less, s);
    SortPermutes(less, s);
    SortedPermutationIsUnique(less, Sort(less, s), s);
  }

  /** Sorting forgets the input order. */
  lemma SortForgetsOrder<T(!new)>(less: (T, T) -> bool, s: seq<T>, t: seq<T>)
    requires StrictOrder(less) && Distinguished(less, s) && Distinguished(less, t)
    requires multiset(s) == multiset(t)
    ensures Sort(less, s) == Sort(less, t)
  {
    SortIsSorted(less, s);
    SortIsSorted(less, t);
    SortPermutes(less, s);
    SortPermutes(less, t);
    SortedPermutationIsUnique(less, Sort(less, s), Sort(less, t));
  }

  lemma SortKeepsMembers<T>(less: (T, T) -> bool, s: seq<T>)
    ensures forall x :: x in Sort(less, s) <==> x in s
  {
    SortPermutes(less, s);
    forall x ensures x in Sort(less, s) <==> x in s {
      assert x in Sort(less, s) <==> x in multiset(Sort(less, s));
      assert x in s <==> x in multiset(s);
    }
  }

  /** A strict order in which incomparable elements are alike. */
  ghost predicate WeakOrder<T(!new)>(less: (T, T) -> bool) {
    StrictOrder(less) && forall x: T, y: T, z: T :: less(x, z) ==> less(x, y) || less(y, z)
  }

  ghost predicate WeaklySorted<T(!new)>(less: (T, T) -> bool, s: seq<T>) {
    forall i, j :: 0 <= i < j < |s| ==> !less(s[j], s[i])
  }

  lemma {:induction false} InsertKeepsWeaklySorted<T(!new)>(less: (T, T) -> bool, s: seq<T>, x: T)
    requires WeakOrder(less) && WeaklySorted(less, s)
    ensures WeaklySorted(less, Insert(less, s, x))
  {
    if s != [] {
      var front, last := s[..|s| - 1], s[|s| - 1];
      if less(x, last) {
        InsertKeepsWeaklySorted(less, front, x);
        InsertPermutes(less, front, x);
        var inserted := Insert(less, front, x);
        forall y | y in inserted ensures !less(last, y) {
          assert y in multiset(front) + multiset{x};
          assert y == x || y in front;
        }
      } else {
        forall y | y in s ensures !less(x, y) {
          var i :| 0 <= i < |s| && s[i] == y;
        }
      }
    }
  }

  /** Sorting by a weak order leaves nothing behind something greater. */
  lemma {:induction false} SortIsWeaklySorted<T(!new)>(less: (T, T) -> bool, s: seq<T>)
    requires WeakOrder(less)
    ensures WeaklySorted(less, Sort(less, s))
  {
    if s != [] {
      SortIsWeaklySorted(less, s[..|s| - 1]);
      InsertKeepsWeaklySorted(less, Sort(less, s[..|s| - 1]), s[|s| - 1]);
    }
  }

  /** Where the last element of a sequence sits in a permutation of it. */
  lemma MatchLast<T>(a: seq<T>, b: seq<T>) returns (j: nat)
    requires a != [] && multiset(a) == multiset(b)
    ensures j < |b| && b[j] == a[|a| - 1]
    ensures b == b[..j] + [b[j]] + b[j + 1..]
    ensures multiset(a[..|a| - 1]) == multiset(b[..j] + b[j + 1..])
  {
    var front, last := a[..|a| - 1], a[|a| - 1];
    assert a == front + [last];
    assert last in multiset(b);
    j :| 0 <= j < |b| && b[j] == last;
    assert b == b[..j] + [last] + b[j + 1..];
    var p, q := b[..j], b[j + 1..];
    assert multiset(b) == multiset(p + [last] + q) == multiset(p + q) + multiset{last};
    assert multiset(front) == multiset(a) - multiset{last};
    assert multiset(p + q) == multiset(b) - multiset{last};
  }

  lemma TwoPositions<T>(a: seq<T>, x: T, y: T)
    requires multiset{x, y} <= multiset(a)
    ensures exists k, l :: 0 <= k < l < |a| && ((a[k] == x && a[l] == y) || (a[k] == y && a[l] == x))
  {
    assert x in multiset(a);
    var k :| 0 <= k < |a| && a[k] == x;
    OtherPosition(a, k, y);
    var l :| 0 <= l < |a| && l != k && a[l] == y;
    var m, n := if l < k then l else k, if l < k then k else l;
    assert 0 <= m < n < |a| && ((a[m] == x && a[n] == y) || (a[m] == y && a[n] == x));
  }

  lemma OtherPosition<T>(a: seq<T>, k: nat, y: T)
    requires k < |a| && multiset{a[k], y} <= multiset(a)
    ensures exists l :: 0 <= l < |a| && l != k && a[l] == y
  {
    var p, q := a[..k], a[k + 1..];
    assert a == p + [a[k]] + q;
    assert multiset(a) == multiset(p) + multiset{a[k]} + multiset(q);
    assert y in multiset(p) + multiset(q);
    if y in p {
      var l :| 0 <= l < |p| && p[l] == y;
      assert a[l] == y;
    } else {
      assert y in q;
      var l :| 0 <= l < |q| && q[l] == y;
      assert a[k + 1 + l] == y;
    }
  }

  ghost predicate DistinctBy<T, K>(key: T -> K, s: seq<T>) {
    forall i, j :: 0 <= i < j < |s| ==> key(s[i]) != key(s[j])
  }

  /** That all keys differ does not depend on the order. */
  lemma DistinctForgetsOrder<T, K>(key: T -> K, a: seq<T>, b: seq<T>)
    requires multiset(a) == multiset(b) && DistinctBy(key, a)
    ensures DistinctBy(key, b)
  {
    forall i, j | 0 <= i < j < |b| ensures key(b[i]) != key(b[j]) {
      var x, y := b[i], b[j];
      assert b == b[..i] + [x] + b[i + 1..j] + [y] + b[j + 1..];
      assert multiset(b) == multiset(b[..i]) + multiset{x} + multiset(b[i + 1..j]) + multiset{y} + multiset(b[j + 1..]);
      assert multiset{x, y} <= multiset(a);
      TwoPositions(a, x, y);
    }
  }
}
