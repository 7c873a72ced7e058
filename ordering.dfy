/**
 * Strict total orders and `sorted(set(xs))`: the sorted list of the distinct
 * elements of a sequence, as Python builds it for column names and category levels.
 */
module Ordering {

  ghost predicate StrictTotalOrder<T(!new)>(lt: (T, T) -> bool)
  {
    && (forall x :: !lt(x, x))
    && (forall x, y, z :: lt(x, y) && lt(y, z) ==> lt(x, z))
    && (forall x, y :: x != y ==> lt(x, y) || lt(y, x))
  }

  ghost predicate StrictlySorted<T>(s: seq<T>, lt: (T, T) -> bool)
  {
    forall i, j :: 0 <= i < j < |s| ==> lt(s[i], s[j])
  }

  /** Python's `<` on `str`: lexicographic by code point, a proper prefix comes first. */
  predicate StrLess(a: string, b: string)
  {
    if |a| == 0 then |b| > 0
    else |b| > 0 && (a[0] < b[0] || (a[0] == b[0] && StrLess(a[1..], b[1..])))
  }

  lemma {:induction false} StrLessIrreflexive(a: string)
    ensures !StrLess(a, a)
  {
    if |a| > 0 {
      StrLessIrreflexive(a[1..]);
    }
  }

  lemma {:induction false} StrLessTransitive(a: string, b: string, c: string)
    requires StrLess(a, b) && StrLess(b, c)
    ensures StrLess(a, c)
  {
    if |a| > 0 && a[0] == b[0] && b[0] == c[0] {
      StrLessTransitive(a[1..], b[1..], c[1..]);
    }
  }

  lemma {:induction false} StrLessTotal(a: string, b: string)
    requires a != b
    ensures StrLess(a, b) || StrLess(b, a)
  {
    if |a| > 0 && |b| > 0 && a[0] == b[0] {
      StrLessTotal(a[1..], b[1..]);
    }
  }

  lemma StrLessIsStrictTotalOrder()
    ensures StrictTotalOrder(StrLess)
  {
    forall a | true ensures !StrLess(a, a) { StrLessIrreflexive(a); }
    forall a, b, c | StrLess(a, b) && StrLess(b, c) ensures StrLess(a, c) {
      StrLessTransitive(a, b, c);
    }
    forall a, b | a != b ensures StrLess(a, b) || StrLess(b, a) { StrLessTotal(a, b); }
  }

  /** Inserts `x` into a strictly sorted sequence, unless it is already there. */
  function Insert<T(==, !new)>(x: T, s: seq<T>, lt: (T, T) -> bool): (r: seq<T>)
    requires StrictTotalOrder(lt)
    requires StrictlySorted(s, lt)
    ensures StrictlySorted(r, lt)
    ensures forall v :: v in r <==> v == x || v in s
  {
    if s == [] then [x]
    else if x == s[0] then s
    else if lt(x, s[0]) then
      assert forall j :: 0 <= j < |s| ==> lt(x, s[j]) by {
        forall j | 0 <= j < |s| ensures lt(x, s[j]) {
          if j > 0 { assert lt(s[0], s[j]); }
        }
      }
      [x] + s
    else
      var rest := Insert(x, s[1..], lt);
      assert lt(s[0], x);
      assert forall v :: v in rest ==> lt(s[0], v) by {
        forall v | v in rest ensures lt(s[0], v) {
          if v != x {
            var j :| 0 <= j < |s[1..]| && s[1..][j] == v;
            assert s[j + 1] == v;
          }
        }
      }
      [s[0]] + rest
  }

  /** `sorted(set(xs))`: the distinct elements of `xs` in increasing order. */
  function SortedUnique<T(==, !new)>(xs: seq<T>, lt: (T, T) -> bool): (r: seq<T>)
    requires StrictTotalOrder(lt)
    ensures StrictlySorted(r, lt)
    ensures forall v :: v in r <==> v in xs
  {
    if xs == [] then [] else Insert(xs[0], SortedUnique(xs[1..], lt), lt)
  }

  /**
   * A strictly sorted sequence is determined by its elements, so `SortedUnique`
   * is THE sorted list of the set of elements of its argument.
   */
  lemma {:induction false} SortedIsUnique<T(!new)>(r1: seq<T>, r2: seq<T>, lt: (T, T) -> bool)
    requires StrictTotalOrder(lt)
    requires StrictlySorted(r1, lt) && StrictlySorted(r2, lt)
    requires forall v :: v in r1 <==> v in r2
    ensures r1 == r2
  {
    if r1 == [] {
      if r2 != [] {
        HeadIsElement(r2);
        assert false;
      }
    } else {
      assert r2 != [] by { assert r1[0] in r2; }
      InTail(r1, r2[0], lt);
      InTail(r2, r1[0], lt);
      assert r1[0] == r2[0] by {
        if r1[0] != r2[0] {
          HeadIsLeast(r1, r2[0], lt);
          HeadIsLeast(r2, r1[0], lt);
        }
      }
      forall v ensures v in r1[1..] <==> v in r2[1..] {
        InTail(r1, v, lt);
        InTail(r2, v, lt);
      }
      SortedIsUnique(r1[1..], r2[1..], lt);
      assert r1 == [r1[0]] + r1[1..];
      assert r2 == [r2[0]] + r2[1..];
    }
  }

  /** In a strictly sorted sequence, the tail holds exactly the elements other than the head. */
  lemma InTail<T(!new)>(r: seq<T>, v: T, lt: (T, T) -> bool)
    requires StrictTotalOrder(lt)
    requires StrictlySorted(r, lt) && r != []
    ensures v in r[1..] <==> v in r && v != r[0]
  {
    if v in r[1..] {
      var i :| 0 <= i < |r[1..]| && r[1..][i] == v;
      assert lt(r[0], r[i + 1]);
    }
    if v in r && v != r[0] {
      var i :| 0 <= i < |r| && r[i] == v;
      assert r[1..][i - 1] == v;
    }
  }

  lemma HeadIsElement<T>(s: seq<T>)
    requires s != []
    ensures s[0] in s
  {
  }

  /** The head of a strictly sorted sequence is below every other element. */
  lemma HeadIsLeast<T(!new)>(r: seq<T>, v: T, lt: (T, T) -> bool)
    requires StrictlySorted(r, lt) && r != []
    requires v in r[1..]
    ensures lt(r[0], v)
  {
    var i :| 0 <= i < |r[1..]| && r[1..][i] == v;
    assert r[i + 1] == v;
  }

  /** Sorting the distinct elements of two sequences with the same elements gives the same result. */
  lemma SortedUniqueOfSameElements<T(!new)>(xs: seq<T>, ys: seq<T>, lt: (T, T) -> bool)
    requires StrictTotalOrder(lt)
    requires forall v :: v in xs <==> v in ys
    ensures SortedUnique(xs, lt) == SortedUnique(ys, lt)
  {
    SortedIsUnique(SortedUnique(xs, lt), SortedUnique(ys, lt), lt);
  }
}
