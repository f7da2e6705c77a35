/** Library sorting as the sources use it (`sort`, `sorted`): a stable insertion sort given by a
    strict order, and the one fact every caller needs: when all elements are pairwise ordered, the
    result depends only on the multiset of elements. */
module Ordering {

  ghost predicate IsAsymmetric<T(!new)>(less: (T, T) -> bool) {
    forall x, y :: less(x, y) ==> !less(y, x)
  }

  ghost predicate IsStrict<T(!new)>(less: (T, T) -> bool) {
    && IsAsymmetric(less)
    && (forall x, y, z :: less(x, y) && less(y, z) ==> less(x, z))
  }

  ghost predicate Comparable<T>(s: seq<T>, less: (T, T) -> bool) {
    forall i, j :: 0 <= i < j < |s| ==> less(s[i], s[j]) || less(s[j], s[i])
  }

  ghost predicate Ascending<T>(s: seq<T>, less: (T, T) -> bool) {
    forall i, j :: 0 <= i < j < |s| ==> less(s[i], s[j])
  }

  function Insert<T>(x: T, s: seq<T>, less: (T, T) -> bool): seq<T> {
    if s == [] || less(x, s[0]) then [x] + s else [s[0]] + Insert(x, s[1..], less)
  }

  function Sort<T>(s: seq<T>, less: (T, T) -> bool): seq<T> {
    if s == [] then [] else Insert(s[|s| - 1], Sort(s[..|s| - 1], less), less)
  }

  lemma {:induction false} InsertPermutes<T>(x: T, s: seq<T>, less: (T, T) -> bool)
    ensures multiset(Insert(x, s, less)) == multiset{x} + multiset(s)
  {
    if s != [] && !less(x, s[0]) {
      InsertPermutes(x, s[1..], less);
      assert s == [s[0]] + s[1..];
    }
  }

  lemma {:induction false} SortPermutes<T>(s: seq<T>, less: (T, T) -> bool)
    ensures multiset(Sort(s, less)) == multiset(s)
    ensures |Sort(s, less)| == |s|
    ensures forall x :: x in Sort(s, less) <==> x in s
  {
    if s != [] {
      var init, last := s[..|s| - 1], s[|s| - 1];
      SortPermutes(init, less);
      InsertPermutes(last, Sort(init, less), less);
      assert s == init + [last];
    }
    SameElements(Sort(s, less), s);
  }

  lemma SameElements<T>(a: seq<T>, b: seq<T>)
    requires multiset(a) == multiset(b)
    ensures |a| == |b|
    ensures forall x :: x in a <==> x in b
  {
    assert |a| == |multiset(a)| == |multiset(b)| == |b|;
    forall x ensures x in a <==> x in b {
      assert x in multiset(a) <==> x in multiset(b);
    }
  }

  lemma {:induction false} InsertAscending<T(!new)>(x: T, s: seq<T>, less: (T, T) -> bool)
    requires IsStrict(less) && Ascending(s, less)
    requires forall y :: y in s ==> less(x, y) || less(y, x)
    ensures Ascending(Insert(x, s, less), less)
  {
    if s != [] && !less(x, s[0]) {
      InsertAscending(x, s[1..], less);
      InsertPermutes(x, s[1..], less);
      var t := Insert(x, s[1..], less);
      assert s[0] in s;
      forall j | 0 <= j < |t| ensures less(s[0], t[j]) {
        assert t[j] in multiset(t);
        assert t[j] == x || t[j] in s[1..];
      }
    } else if s != [] {
      forall j | 0 <= j < |s| ensures less(x, s[j]) {
        if j > 0 { assert less(s[0], s[j]); }
      }
    }
  }

  lemma {:induction false} SortAscending<T(!new)>(s: seq<T>, less: (T, T) -> bool)
    requires IsStrict(less) && Comparable(s, less)
    ensures Ascending(Sort(s, less), less)
  {
    if s != [] {
      var init := s[..|s| - 1];
      SortAscending(init, less);
      SortPermutes(init, less);
      InsertAscending(s[|s| - 1], Sort(init, less), less);
    }
  }

  lemma SameHead<T(!new)>(a: seq<T>, b: seq<T>, less: (T, T) -> bool)
    requires IsAsymmetric(less) && Ascending(a, less) && Ascending(b, less)
    requires a != [] && b != [] && a[0] in b && b[0] in a
    ensures a[0] == b[0]
  {
    var i :| 0 <= i < |b| && b[i] == a[0];
    var j :| 0 <= j < |a| && a[j] == b[0];
    assert i > 0 ==> less(b[0], a[0]);
    assert j > 0 ==> less(a[0], b[0]);
  }

  lemma {:induction false} AscendingUnique<T(!new)>(a: seq<T>, b: seq<T>, less: (T, T) -> bool)
    requires IsAsymmetric(less) && Ascending(a, less) && Ascending(b, less)
    requires multiset(a) == multiset(b)
    ensures a == b
  {
    SameElements(a, b);
    if a != [] {
      SameHead(a, b, less);
      TailMultiset(a);
      TailMultiset(b);
      AscendingUnique(a[1..], b[1..], less);
      assert a == [a[0]] + a[1..] && b == [b[0]] + b[1..];
    }
  }

  /** Ascending sequences with the same elements are equal. */
  lemma {:induction false} AscendingByElements<T(!new)>(a: seq<T>, b: seq<T>, less: (T, T) -> bool)
    requires IsAsymmetric(less) && Ascending(a, less) && Ascending(b, less)
    requires forall x :: x in a <==> x in b
    ensures a == b
  {
    if b != [] { assert b[0] in b; }
    if a != [] {
      assert a[0] in a && a[0] in b && b[0] in b;
      SameHead(a, b, less);
      forall x ensures x in a[1..] <==> x in b[1..] {
        InTail(a, less, x);
        InTail(b, less, x);
      }
      AscendingByElements(a[1..], b[1..], less);
      assert a == [a[0]] + a[1..] && b == [b[0]] + b[1..];
    }
  }

  lemma InTail<T(!new)>(a: seq<T>, less: (T, T) -> bool, x: T)
    requires IsAsymmetric(less) && Ascending(a, less) && a != []
    ensures x in a[1..] <==> x in a && x != a[0]
  {
    assert a == [a[0]] + a[1..];
    if x in a[1..] {
      var i :| 0 <= i < |a| - 1 && a[1..][i] == x;
      assert less(a[0], a[i + 1]);
    }
  }

  lemma TailMultiset<T>(a: seq<T>)
    requires a != []
    ensures multiset(a[1..]) == multiset(a) - multiset{a[0]}
  {
    assert a == [a[0]] + a[1..];
  }

  /** Sorting pairwise ordered elements forgets the order they came in. */
  lemma {:induction false} SortCanonical<T(!new)>(a: seq<T>, b: seq<T>, less: (T, T) -> bool)
    requires IsStrict(less) && Comparable(a, less) && Comparable(b, less)
    requires multiset(a) == multiset(b)
    ensures Sort(a, less) == Sort(b, less)
  {
    SortPermutes(a, less);
    SortPermutes(b, less);
    SortAscending(a, less);
    SortAscending(b, less);
    AscendingUnique(Sort(a, less), Sort(b, less), less);
  }

  // ---------------------------------------------------------------- strings

  /** Lexicographic order of strings. */
  predicate StringLess(a: string, b: string) {
    b != "" && (a == "" || a[0] < b[0] || (a[0] == b[0] && StringLess(a[1..], b[1..])))
  }

  /** A string is less than another exactly when it is a proper prefix of it, or has the smaller character
      at the first place where they differ. */
  lemma {:induction false} StringLessExactly(a: string, b: string)
    ensures StringLess(a, b) <==> (a < b || exists k :: FirstDifference(a, b, k) && a[k] < b[k])
  {
    if a != "" && b != "" {
      if a[0] == b[0] {
        StringLessExactly(a[1..], b[1..]);
        assert a == [a[0]] + a[1..] && b == [b[0]] + b[1..];
        assert a < b <==> a[1..] < b[1..];
        forall k | 0 <= k < |a| - 1 && k < |b| - 1
          ensures FirstDifference(a[1..], b[1..], k) <==> FirstDifference(a, b, k + 1)
        {
          DifferenceInTail(a, b, k);
        }
        forall k | FirstDifference(a, b, k) ensures k > 0 && FirstDifference(a[1..], b[1..], k - 1) {
          assert k > 0;
          DifferenceInTail(a, b, k - 1);
        }
      } else {
        assert FirstDifference(a, b, 0);
        forall k | FirstDifference(a, b, k) ensures k == 0 {
          if k > 0 { SameStart(a, b, k); }
        }
      }
    }
  }

  predicate FirstDifference(a: string, b: string, k: int) {
    0 <= k < |a| && k < |b| && a[..k] == b[..k] && a[k] != b[k]
  }

  lemma SameStart(a: string, b: string, k: nat)
    requires FirstDifference(a, b, k) && k > 0
    ensures a[0] == b[0]
  {
    assert a[..k][0] == a[0] && b[..k][0] == b[0];
  }

  lemma DifferenceInTail(a: string, b: string, k: nat)
    requires k + 1 < |a| && k + 1 < |b| && a[0] == b[0]
    ensures FirstDifference(a[1..], b[1..], k) <==> FirstDifference(a, b, k + 1)
  {
    assert a[..k + 1] == [a[0]] + a[1..][..k] && b[..k + 1] == [b[0]] + b[1..][..k];
    assert a[1..][..k] == a[..k + 1][1..] && b[1..][..k] == b[..k + 1][1..];
  }

  lemma StringTotal(a: string, b: string)
    ensures a == b || StringLess(a, b) || StringLess(b, a)
    ensures !(StringLess(a, b) && StringLess(b, a))
    ensures !StringLess(a, a)
  {
    if a != "" && b != "" && a[0] == b[0] {
      StringTotal(a[1..], b[1..]);
      assert a == [a[0]] + a[1..] && b == [b[0]] + b[1..];
    }
  }

  lemma {:induction false} StringTransitive(a: string, b: string, c: string)
    requires StringLess(a, b) && StringLess(b, c)
    ensures StringLess(a, c)
  {
    if a != "" && a[0] == b[0] && b[0] == c[0] {
      StringTransitive(a[1..], b[1..], c[1..]);
    }
  }

  lemma StringStrict()
    ensures IsStrict(StringLess)
  {
    forall x, y | StringLess(x, y) ensures !StringLess(y, x) { StringTotal(x, y); }
    forall x, y, z | StringLess(x, y) && StringLess(y, z) ensures StringLess(x, z) {
      StringTransitive(x, y, z);
    }
  }
}
