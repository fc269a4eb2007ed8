/** Stable sorting by a total preorder, as Python's sort and sorted do it, and why its result is unique. */
module Sorting {

  ghost predicate TotalPreorder<T(!new)>(le: (T, T) -> bool) {
    && (forall x, y :: le(x, y) || le(y, x))
    && (forall x, y, z :: le(x, y) && le(y, z) ==> le(x, z))
  }

  ghost predicate Sorted<T>(s: seq<T>, le: (T, T) -> bool) {
    forall i, j | 0 <= i < j < |s| :: le(s[i], s[j])
  }

  /** The elements of `s` equivalent to `t`, in the order of `s`. */
  function Like<T>(s: seq<T>, le: (T, T) -> bool, t: T): seq<T> {
    if s == [] then []
    else
      var rest, x := Like(s[..|s|-1], le, t), s[|s|-1];
      if le(x, t) && le(t, x) then rest + [x] else rest
  }

  function Insert<T>(s: seq<T>, x: T, le: (T, T) -> bool): seq<T> {
    if s == [] || le(s[|s|-1], x) then s + [x]
    else Insert(s[..|s|-1], x, le) + [s[|s|-1]]
  }

  function Sort<T>(s: seq<T>, le: (T, T) -> bool): seq<T> {
    if s == [] then [] else Insert(Sort(s[..|s|-1], le), s[|s|-1], le)
  }

  lemma {:induction false} InsertAdds<T>(s: seq<T>, x: T, le: (T, T) -> bool)
    ensures multiset(Insert(s, x, le)) == multiset(s) + multiset{x}
  {
    if s == [] || le(s[|s|-1], x) {
    } else {
      InsertAdds(s[..|s|-1], x, le);
      assert s == s[..|s|-1] + [s[|s|-1]];
    }
  }

  lemma {:induction false} InsertIsSorted<T(!new)>(s: seq<T>, x: T, le: (T, T) -> bool)
    requires TotalPreorder(le) && Sorted(s, le)
    ensures Sorted(Insert(s, x, le), le)
  {
    if s == [] || le(s[|s|-1], x) {
    } else {
      var init, last := s[..|s|-1], s[|s|-1];
      InsertIsSorted(init, x, le);
      InsertAdds(init, x, le);
      var r := Insert(init, x, le);
      forall i | 0 <= i < |r| ensures le(r[i], last) {
        assert r[i] in multiset(r);
      }
    }
  }

  lemma {:induction false} InsertIsStable<T(!new)>(s: seq<T>, x: T, le: (T, T) -> bool, t: T)
    requires TotalPreorder(le) && Sorted(s, le)
    ensures Like(Insert(s, x, le), le, t) == Like(s + [x], le, t)
  {
    assert (s + [x])[..|s|] == s;
    if s == [] || le(s[|s|-1], x) {
    } else {
      var init, last := s[..|s|-1], s[|s|-1];
      InsertIsStable(init, x, le, t);
      assert (init + [x])[..|init|] == init;
      assert Insert(s, x, le)[..|Insert(s, x, le)|-1] == Insert(init, x, le);
    }
  }

  /** Sorting sorts, permutes, and keeps equivalent elements in their order. */
  lemma {:induction false} SortIsStableSort<T(!new)>(s: seq<T>, le: (T, T) -> bool)
    requires TotalPreorder(le)
    ensures Sorted(Sort(s, le), le) && multiset(Sort(s, le)) == multiset(s) && |Sort(s, le)| == |s|
    ensures forall t :: Like(Sort(s, le), le, t) == Like(s, le, t)
  {
    if s != [] {
      var init, last := s[..|s|-1], s[|s|-1];
      assert s == init + [last];
      SortIsStableSort(init, le);
      InsertIsSorted(Sort(init, le), last, le);
      InsertAdds(Sort(init, le), last, le);
      forall t ensures Like(Sort(s, le), le, t) == Like(s, le, t) {
        InsertIsStable(Sort(init, le), last, le, t);
        assert (Sort(init, le) + [last])[..|Sort(init, le)|] == Sort(init, le);
      }
      assert |multiset(Sort(s, le))| == |Sort(s, le)|;
    }
  }

  lemma {:induction false} LikeMembers<T(!new)>(s: seq<T>, le: (T, T) -> bool, t: T)
    requires TotalPreorder(le)
    ensures forall x :: x in Like(s, le, t) <==> x in s && le(x, t) && le(t, x)
  {
    if s != [] {
      LikeMembers(s[..|s|-1], le, t);
      assert s == s[..|s|-1] + [s[|s|-1]];
    }
  }

  /** A sorted sequence is determined by the order within each class of equivalent elements. */
  lemma {:induction false} SortedIsUnique<T(!new)>(a: seq<T>, b: seq<T>, le: (T, T) -> bool)
    requires TotalPreorder(le) && Sorted(a, le) && Sorted(b, le)
    requires forall t :: Like(a, le, t) == Like(b, le, t)
    ensures a == b
    decreases |a|
  {
    if a == [] {
      if b != [] {
        assert Like(a, le, b[|b|-1]) == [];
        LikeMembers(b, le, b[|b|-1]);
      }
    } else {
      SameLast(a, b, le);
      var a', b', x := a[..|a|-1], b[..|b|-1], a[|a|-1];
      forall t ensures Like(a', le, t) == Like(b', le, t) {
        assert Like(a, le, t) == Like(b, le, t);
        if le(x, t) && le(t, x) {
          assert Like(a', le, t) == Like(a, le, t)[..|Like(a, le, t)|-1];
          assert Like(b', le, t) == Like(b, le, t)[..|Like(b, le, t)|-1];
        }
      }
      SortedIsUnique(a', b', le);
      assert a == a' + [x] && b == b' + [x];
    }
  }

  lemma SameLast<T(!new)>(a: seq<T>, b: seq<T>, le: (T, T) -> bool)
    requires TotalPreorder(le) && Sorted(a, le) && Sorted(b, le) && a != []
    requires forall t :: Like(a, le, t) == Like(b, le, t)
    ensures b != [] && a[|a|-1] == b[|b|-1]
  {
    var x := a[|a|-1];
    assert Like(a, le, x) == Like(b, le, x);
    LikeMembers(a, le, x);
    LikeMembers(b, le, x);
    assert x in Like(b, le, x);
    var y := b[|b|-1];
    assert Like(a, le, y) == Like(b, le, y);
    LikeMembers(a, le, y);
    LikeMembers(b, le, y);
    assert y in Like(a, le, y);
    assert le(x, y) && le(y, x);
    assert Like(a, le, x)[|Like(a, le, x)|-1] == x;
    assert Like(b, le, x)[|Like(b, le, x)|-1] == y;
  }

  ghost predicate IsStableSort<T(!new)>(r: seq<T>, s: seq<T>, le: (T, T) -> bool) {
    Sorted(r, le) && forall t :: Like(r, le, t) == Like(s, le, t)
  }

  /** There is exactly one stable sort of a sequence, and Sort computes it. */
  lemma SortExactly<T(!new)>(r: seq<T>, s: seq<T>, le: (T, T) -> bool)
    requires TotalPreorder(le)
    ensures r == Sort(s, le) <==> IsStableSort(r, s, le)
  {
    SortIsStableSort(s, le);
    if IsStableSort(r, s, le) {
      forall t ensures Like(r, le, t) == Like(Sort(s, le), le, t) {
        assert Like(r, le, t) == Like(s, le, t);
      }
      SortedIsUnique(r, Sort(s, le), le);
    }
  }

  lemma {:induction false} SortPermutes<T>(s: seq<T>, le: (T, T) -> bool)
    ensures multiset(Sort(s, le)) == multiset(s)
  {
    if s != [] {
      SortPermutes(s[..|s|-1], le);
      InsertAdds(Sort(s[..|s|-1], le), s[|s|-1], le);
      assert s == s[..|s|-1] + [s[|s|-1]];
    }
  }

  /** Only the order among the elements themselves matters. */
  lemma {:induction false} SortSameOn<T>(s: seq<T>, le: (T, T) -> bool, le': (T, T) -> bool)
    requires forall a, b | a in s && b in s :: le(a, b) <==> le'(a, b)
    ensures Sort(s, le) == Sort(s, le')
  {
    if s != [] {
      var init, last := s[..|s|-1], s[|s|-1];
      SortSameOn(init, le, le');
      SortPermutes(init, le);
      forall a | a in Sort(init, le) ensures le(a, last) <==> le'(a, last) {
        assert a in multiset(Sort(init, le));
      }
      InsertSameOn(Sort(init, le), last, le, le');
    }
  }

  lemma {:induction false} InsertSameOn<T>(s: seq<T>, x: T, le: (T, T) -> bool, le': (T, T) -> bool)
    requires forall a | a in s :: le(a, x) <==> le'(a, x)
    ensures Insert(s, x, le) == Insert(s, x, le')
  {
    if s != [] {
      InsertSameOn(s[..|s|-1], x, le, le');
    }
  }
}
