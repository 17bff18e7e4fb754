/** Python's `sorted`: a stable sort under a total preorder, and the facts the callers need about it. */
module StableSort {

  ghost predicate TotalPreorder<T(!new)>(le: (T, T) -> bool) {
    && (forall x, y :: le(x, y) || le(y, x))
    && (forall x, y, z :: le(x, y) && le(y, z) ==> le(x, z))
  }

  /** Before the first element it may precede. */
  function Insert<T>(x: T, ys: seq<T>, le: (T, T) -> bool): seq<T> {
    if ys == [] || le(x, ys[0]) then [x] + ys else [ys[0]] + Insert(x, ys[1..], le)
  }

  function Sorted<T>(xs: seq<T>, le: (T, T) -> bool): (r: seq<T>)
    ensures |r| == |xs|
  {
    if xs == [] then [] else
    InsertLength(xs[0], Sorted(xs[1..], le), le);
    Insert(xs[0], Sorted(xs[1..], le), le)
  }

  lemma {:induction false} InsertLength<T>(x: T, ys: seq<T>, le: (T, T) -> bool)
    ensures |Insert(x, ys, le)| == |ys| + 1
    decreases |ys|
  {
    if !(ys == [] || le(x, ys[0])) {
      InsertLength(x, ys[1..], le);
    }
  }

  ghost predicate IsSorted<T(!new)>(xs: seq<T>, le: (T, T) -> bool) {
    forall i, j :: 0 <= i < j < |xs| ==> le(xs[i], xs[j])
  }

  function Filter<T>(xs: seq<T>, p: T -> bool): seq<T> {
    if xs == [] then [] else (if p(xs[0]) then [xs[0]] else []) + Filter(xs[1..], p)
  }

  lemma {:induction false} InsertPermutes<T>(x: T, ys: seq<T>, le: (T, T) -> bool)
    ensures multiset(Insert(x, ys, le)) == multiset([x]) + multiset(ys)
    decreases |ys|
  {
    if !(ys == [] || le(x, ys[0])) {
      InsertPermutes(x, ys[1..], le);
      assert ys == [ys[0]] + ys[1..];
    }
  }

  lemma {:induction false} SortedPermutes<T>(xs: seq<T>, le: (T, T) -> bool)
    ensures multiset(Sorted(xs, le)) == multiset(xs)
    decreases |xs|
  {
    if xs != [] {
      SortedPermutes(xs[1..], le);
      InsertPermutes(xs[0], Sorted(xs[1..], le), le);
      assert xs == [xs[0]] + xs[1..];
    }
  }

  lemma PermutationMembers<T>(xs: seq<T>, ys: seq<T>)
    requires multiset(xs) == multiset(ys)
    ensures |xs| == |ys|
    ensures forall x :: x in xs <==> x in ys
  {
    assert |multiset(xs)| == |multiset(ys)|;
    forall x
      ensures x in xs <==> x in ys
    {
      assert x in xs <==> x in multiset(xs);
    }
  }

  lemma SortedMembers<T>(xs: seq<T>, le: (T, T) -> bool)
    ensures forall x :: x in Sorted(xs, le) <==> x in xs
  {
    SortedPermutes(xs, le);
    PermutationMembers(xs, Sorted(xs, le));
  }

  lemma {:induction false} InsertSorts<T(!new)>(x: T, ys: seq<T>, le: (T, T) -> bool)
    requires TotalPreorder(le) && IsSorted(ys, le)
    ensures IsSorted(Insert(x, ys, le), le)
    decreases |ys|
  {
    if !(ys == [] || le(x, ys[0])) {
      var rest := Insert(x, ys[1..], le);
      InsertSorts(x, ys[1..], le);
      InsertPermutes(x, ys[1..], le);
      PermutationMembers(rest, [x] + ys[1..]);
      forall i | 0 <= i < |rest|
        ensures le(ys[0], rest[i])
      {
        assert rest[i] in [x] + ys[1..];
      }
    }
  }

  lemma {:induction false} SortedIsSorted<T(!new)>(xs: seq<T>, le: (T, T) -> bool)
    requires TotalPreorder(le)
    ensures IsSorted(Sorted(xs, le), le)
    decreases |xs|
  {
    if xs != [] {
      SortedIsSorted(xs[1..], le);
      InsertSorts(xs[0], Sorted(xs[1..], le), le);
    }
  }

  lemma FilterCons<T>(x: T, ys: seq<T>, p: T -> bool)
    ensures Filter([x] + ys, p) == if p(x) then [x] + Filter(ys, p) else Filter(ys, p)
  {
    assert ([x] + ys)[1..] == ys;
  }

  lemma {:induction false} InsertFilters<T(!new)>(x: T, ys: seq<T>, le: (T, T) -> bool, p: T -> bool)
    requires forall y :: p(x) && p(y) ==> le(x, y)
    ensures Filter(Insert(x, ys, le), p) == if p(x) then [x] + Filter(ys, p) else Filter(ys, p)
    decreases |ys|
  {
    if ys == [] || le(x, ys[0]) {
      FilterCons(x, ys, p);
    } else {
      InsertFilters(x, ys[1..], le, p);
      FilterCons(ys[0], Insert(x, ys[1..], le), p);
    }
  }

  /** Stability: elements that count as equal keep their order. */
  lemma {:induction false} SortedIsStable<T(!new)>(xs: seq<T>, le: (T, T) -> bool, p: T -> bool)
    requires forall x, y :: p(x) && p(y) ==> le(x, y)
    ensures Filter(Sorted(xs, le), p) == Filter(xs, p)
    decreases |xs|
  {
    if xs != [] {
      SortedIsStable(xs[1..], le, p);
      InsertFilters(xs[0], Sorted(xs[1..], le), le, p);
    }
  }

  lemma SameHead<T(!new)>(xs: seq<T>, ys: seq<T>, le: (T, T) -> bool)
    requires xs != [] && ys != []
    requires IsSorted(xs, le) && IsSorted(ys, le) && multiset(xs) == multiset(ys)
    requires forall x, y :: x in xs && y in xs && le(x, y) && le(y, x) ==> x == y
    ensures xs[0] == ys[0]
  {
    PermutationMembers(xs, ys);
    assert ys[0] in xs && xs[0] in ys;
    var i :| 0 <= i < |xs| && xs[i] == ys[0];
    var j :| 0 <= j < |ys| && ys[j] == xs[0];
  }

  lemma TailMultiset<T>(xs: seq<T>)
    requires xs != []
    ensures multiset(xs[1..]) == multiset(xs) - multiset([xs[0]])
  {
    assert xs == [xs[0]] + xs[1..];
  }

  /** Under an order that never ties distinct elements, only the contents matter. */
  lemma {:induction false} SortedUnique<T(!new)>(xs: seq<T>, ys: seq<T>, le: (T, T) -> bool)
    requires IsSorted(xs, le) && IsSorted(ys, le) && multiset(xs) == multiset(ys)
    requires forall x, y :: x in xs && y in xs && le(x, y) && le(y, x) ==> x == y
    ensures xs == ys
    decreases |xs|
  {
    assert |multiset(xs)| == |multiset(ys)|;
    if xs != [] {
      SameHead(xs, ys, le);
      TailMultiset(xs);
      TailMultiset(ys);
      SortedUnique(xs[1..], ys[1..], le);
      assert xs == [xs[0]] + xs[1..] && ys == [ys[0]] + ys[1..];
    }
  }

  ghost predicate NoDuplicates<T>(xs: seq<T>) {
    forall i, j :: 0 <= i < j < |xs| ==> xs[i] != xs[j]
  }

  lemma {:induction false} NoDuplicatesCounts<T>(xs: seq<T>)
    ensures NoDuplicates(xs) <==> forall x :: multiset(xs)[x] <= 1
    decreases |xs|
  {
    if xs != [] {
      var rest := xs[1..];
      NoDuplicatesCounts(rest);
      assert xs == [xs[0]] + rest;
      if NoDuplicates(xs) {
        assert NoDuplicates(rest) && xs[0] !in rest;
        assert multiset(rest)[xs[0]] == 0;
      } else if xs[0] in rest {
        assert xs[0] in multiset(rest);
        assert multiset(xs)[xs[0]] == 1 + multiset(rest)[xs[0]];
      } else {
        var i, j :| 0 <= i < j < |xs| && xs[i] == xs[j];
        assert rest[j - 1] == xs[j] && i != 0;
        assert rest[i - 1] == rest[j - 1];
        var x :| multiset(rest)[x] > 1;
        assert multiset(xs)[x] >= multiset(rest)[x];
      }
    }
  }

  lemma PermutationKeepsNoDuplicates<T>(xs: seq<T>, ys: seq<T>)
    requires multiset(xs) == multiset(ys) && NoDuplicates(xs)
    ensures NoDuplicates(ys)
  {
    NoDuplicatesCounts(xs);
    NoDuplicatesCounts(ys);
    PermutationMembers(xs, ys);
  }
}
