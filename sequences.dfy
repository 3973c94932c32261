/**
 * The LINQ operators the core uses on sequences: `Where`, `Select`, `Take`,
 * `SelectMany`, and the stable sort behind `OrderBy` / `ThenBy`.
 *
 * A sort key is given as a relation `le(x, y)`: "x may come before y".
 * `OrderBy(k)` is `le(x, y) == k(x) <= k(y)`, `OrderByDescending(k)` flips it,
 * and `ThenBy` compares a second key when the first ties.
 */
module Sequences {

  /** `Where(p)`: the elements satisfying `p`, in order. */
  function Filter<T(!new)>(p: T -> bool, s: seq<T>): (r: seq<T>)
    ensures |r| <= |s|
    ensures forall x :: x in r <==> x in s && p(x)
  {
    if s == [] then [] else (if p(s[0]) then [s[0]] else []) + Filter(p, s[1..])
  }

  lemma {:induction false} FilterAppend<T(!new)>(p: T -> bool, a: seq<T>, b: seq<T>)
    ensures Filter(p, a + b) == Filter(p, a) + Filter(p, b)
  {
    if a == [] {
      assert a + b == b;
    } else {
      var h := if p(a[0]) then [a[0]] else [];
      calc {
        Filter(p, a + b);
        { assert (a + b)[0] == a[0] && (a + b)[1..] == a[1..] + b; }
        h + Filter(p, a[1..] + b);
        { FilterAppend(p, a[1..], b); }
        h + (Filter(p, a[1..]) + Filter(p, b));
        { AppendTwice(h, Filter(p, a[1..]), Filter(p, b)); }
        Filter(p, a) + Filter(p, b);
      }
    }
  }

  /** `Where(p).First()` is at or before any element satisfying `p`. */
  lemma {:induction false} FilterFirst<T(!new)>(p: T -> bool, s: seq<T>, i: int) returns (j: int)
    requires 0 <= i < |s| && p(s[i])
    ensures 0 <= j <= i && Filter(p, s) != [] && Filter(p, s)[0] == s[j]
  {
    if p(s[0]) {
      j := 0;
    } else {
      j := FilterFirst(p, s[1..], i - 1);
      j := j + 1;
    }
  }

  /** No element occurs twice. */
  predicate NoDuplicates<T(==)>(s: seq<T>)
  {
    forall i, j :: 0 <= i < j < |s| ==> s[i] != s[j]
  }

  /** `Distinct()`: the first occurrence of each element, in order. */
  function Distinct<T(==,!new)>(s: seq<T>): (r: seq<T>)
    ensures forall x :: x in r <==> x in s
    ensures NoDuplicates(r)
  {
    if s == [] then []
    else
      var init, last := s[..|s| - 1], s[|s| - 1];
      assert s == init + [last];
      var d := Distinct(init);
      if last in d then d else d + [last]
  }

  /** One more element is kept when it is new. */
  lemma DistinctSnoc<T(!new)>(s: seq<T>, x: T)
    ensures Distinct(s + [x]) == if x in Distinct(s) then Distinct(s) else Distinct(s) + [x]
  {
    assert (s + [x])[..|s|] == s;
  }

  /** `Where` keeps a sequence free of duplicates. */
  lemma {:induction false} FilterNoDuplicates<T(!new)>(p: T -> bool, s: seq<T>)
    requires NoDuplicates(s)
    ensures NoDuplicates(Filter(p, s))
  {
    if s != [] {
      FilterNoDuplicates(p, s[1..]);
      assert s[0] !in s[1..];
    }
  }

  /** `Select(f)`. */
  function Map<T, U>(f: T -> U, s: seq<T>): (r: seq<U>)
    ensures |r| == |s|
    ensures forall i :: 0 <= i < |s| ==> r[i] == f(s[i])
  {
    seq(|s|, i requires 0 <= i < |s| => f(s[i]))
  }

  lemma MapSnoc<T, U>(f: T -> U, s: seq<T>, x: T)
    ensures Map(f, s + [x]) == Map(f, s) + [f(x)]
  {
  }

  lemma MapAppend<T, U>(f: T -> U, a: seq<T>, b: seq<T>)
    ensures Map(f, a + b) == Map(f, a) + Map(f, b)
  {
  }

  /** Concatenation regrouped. */
  lemma AppendTwice<T>(a: seq<T>, b: seq<T>, c: seq<T>)
    ensures (a + b) + c == a + (b + c)
  {
  }

  lemma FilterSingle<T(!new)>(p: T -> bool, x: T)
    ensures Filter(p, [x]) == if p(x) then [x] else []
  {
    assert [x][1..] == [];
  }

  /** `Where(p).Select(f)` over one more element. */
  lemma MapFilterStep<T(!new), U>(f: T -> U, p: T -> bool, s: seq<T>, k: int)
    requires 0 <= k < |s|
    ensures Map(f, Filter(p, s[..k + 1])) == Map(f, Filter(p, s[..k])) + (if p(s[k]) then [f(s[k])] else [])
  {
    assert s[..k + 1] == s[..k] + [s[k]];
    FilterAppend(p, s[..k], [s[k]]);
    FilterSingle(p, s[k]);
    MapAppend(f, Filter(p, s[..k]), Filter(p, [s[k]]));
  }

  /** `Take(n)`: the first `n` elements, or all of them when there are fewer. */
  function Take<T>(n: nat, s: seq<T>): (r: seq<T>)
    ensures |r| == if n < |s| then n else |s|
    ensures r == s[..|r|]
  {
    if n < |s| then s[..n] else s
  }

  /** `SelectMany` / string concatenation of pieces, in order. */
  function Flatten<T>(ss: seq<seq<T>>): seq<T>
  {
    if ss == [] then [] else Flatten(ss[..|ss| - 1]) + ss[|ss| - 1]
  }

  lemma {:induction false} FlattenLength<T>(ss: seq<seq<T>>, lengths: seq<nat>)
    requires |lengths| == |ss|
    requires forall i :: 0 <= i < |ss| ==> |ss[i]| == lengths[i]
    ensures |Flatten(ss)| == Sum(lengths)
  {
    if ss != [] {
      FlattenLength(ss[..|ss| - 1], lengths[..|lengths| - 1]);
    }
  }

  function Sum(s: seq<nat>): nat
  {
    if s == [] then 0 else Sum(s[..|s| - 1]) + s[|s| - 1]
  }

  ghost predicate Total<T(!new)>(le: (T, T) -> bool)
  {
    forall x, y :: le(x, y) || le(y, x)
  }

  ghost predicate Transitive<T(!new)>(le: (T, T) -> bool)
  {
    forall x, y, z :: le(x, y) && le(y, z) ==> le(x, z)
  }

  /** What a sort key defines: every two elements compare, consistently. */
  ghost predicate TotalPreorder<T(!new)>(le: (T, T) -> bool)
  {
    Total(le) && Transitive(le)
  }

  ghost predicate Sorted<T>(s: seq<T>, le: (T, T) -> bool)
  {
    forall i :: 0 < i < |s| ==> le(s[i - 1], s[i])
  }

  /** Two elements the sort key cannot tell apart. */
  predicate Equivalent<T>(le: (T, T) -> bool, x: T, y: T)
  {
    le(x, y) && le(y, x)
  }

  /** The elements of `s` the sort key cannot tell from `e`, in order. */
  function EquivalentTo<T(!new)>(s: seq<T>, e: T, le: (T, T) -> bool): seq<T>
  {
    Filter(y => Equivalent(le, y, e), s)
  }

  /** Puts `x` before the first element it may precede. */
  function Insert<T>(x: T, s: seq<T>, le: (T, T) -> bool): (r: seq<T>)
    ensures |r| == |s| + 1
  {
    if s == [] || le(x, s[0]) then [x] + s
    else
      assert s == [s[0]] + s[1..];
      [s[0]] + Insert(x, s[1..], le)
  }

  /** The stable sort of LINQ's `OrderBy`: insertion of each element into the sorted rest. */
  function SortBy<T>(s: seq<T>, le: (T, T) -> bool): (r: seq<T>)
    ensures |r| == |s|
  {
    if s == [] then []
    else
      Insert(s[0], SortBy(s[1..], le), le)
  }

  /** Inserting adds the one element and keeps the others. */
  lemma {:induction false} InsertPermutation<T>(x: T, s: seq<T>, le: (T, T) -> bool)
    ensures multiset(Insert(x, s, le)) == multiset(s) + multiset{x}
  {
    if s != [] && !le(x, s[0]) {
      assert s == [s[0]] + s[1..];
      InsertPermutation(x, s[1..], le);
    }
  }

  /** Sorting is a permutation: the same elements, each as often. */
  lemma {:induction false} SortByPermutation<T>(s: seq<T>, le: (T, T) -> bool)
    ensures multiset(SortBy(s, le)) == multiset(s)
  {
    if s != [] {
      assert s == [s[0]] + s[1..];
      SortByPermutation(s[1..], le);
      InsertPermutation(s[0], SortBy(s[1..], le), le);
    }
  }

  /** Sorting keeps exactly the elements there were. */
  lemma SortByMembers<T>(s: seq<T>, le: (T, T) -> bool)
    ensures forall i :: 0 <= i < |SortBy(s, le)| ==> SortBy(s, le)[i] in s
  {
    var r := SortBy(s, le);
    SortByPermutation(s, le);
    forall i | 0 <= i < |r| ensures r[i] in s {
      assert r[i] in multiset(r);
    }
  }

  lemma {:induction false} InsertSorted<T(!new)>(x: T, s: seq<T>, le: (T, T) -> bool)
    requires Total(le) && Sorted(s, le)
    ensures Sorted(Insert(x, s, le), le)
  {
    if s != [] && !le(x, s[0]) {
      assert le(s[0], x);
      InsertSorted(x, s[1..], le);
      var t := Insert(x, s[1..], le);
      assert t[0] == x || t[0] == s[1];
    }
  }

  /** The result of `SortBy` is ordered by the key. */
  lemma {:induction false} SortBySorted<T(!new)>(s: seq<T>, le: (T, T) -> bool)
    requires Total(le)
    ensures Sorted(SortBy(s, le), le)
  {
    if s != [] {
      SortBySorted(s[1..], le);
      InsertSorted(s[0], SortBy(s[1..], le), le);
    }
  }

  /** In a sorted sequence every element may precede every later one. */
  lemma {:induction false} SortedPairwise<T(!new)>(s: seq<T>, le: (T, T) -> bool, i: int, j: int)
    requires Transitive(le) && Sorted(s, le)
    requires 0 <= i <= j < |s|
    requires i < j || le(s[i], s[i])
    ensures le(s[i], s[j])
  {
    if i < j - 1 {
      SortedPairwise(s, le, i, j - 1);
    }
  }

  lemma {:induction false} InsertStable<T(!new)>(x: T, s: seq<T>, e: T, le: (T, T) -> bool)
    requires TotalPreorder(le)
    ensures EquivalentTo(Insert(x, s, le), e, le)
         == (if Equivalent(le, x, e) then [x] else []) + EquivalentTo(s, e, le)
  {
    if s == [] || le(x, s[0]) {
      assert Insert(x, s, le) == [x] + s;
      assert ([x] + s)[1..] == s;
    } else {
      var t := Insert(x, s[1..], le);
      assert Insert(x, s, le) == [s[0]] + t;
      assert ([s[0]] + t)[1..] == t;
      InsertStable(x, s[1..], e, le);
      assert s == [s[0]] + s[1..];
      assert Equivalent(le, x, e) ==> !Equivalent(le, s[0], e);
    }
  }

  /** `SortBy` is stable: elements with equal keys keep their relative order. */
  lemma {:induction false} SortByStable<T(!new)>(s: seq<T>, e: T, le: (T, T) -> bool)
    requires TotalPreorder(le)
    ensures EquivalentTo(SortBy(s, le), e, le) == EquivalentTo(s, e, le)
  {
    if s != [] {
      SortByStable(s[1..], e, le);
      InsertStable(s[0], SortBy(s[1..], le), e, le);
      assert s == [s[0]] + s[1..];
    }
  }

  lemma {:induction false} InsertNoDuplicates<T>(x: T, s: seq<T>, le: (T, T) -> bool)
    requires NoDuplicates(s) && x !in s
    ensures NoDuplicates(Insert(x, s, le))
  {
    if s != [] && !le(x, s[0]) {
      InsertNoDuplicates(x, s[1..], le);
      var t := Insert(x, s[1..], le);
      InsertPermutation(x, s[1..], le);
      assert s[0] !in s[1..];
      assert s[0] !in multiset(t);
    }
  }

  /** Sorting keeps a sequence free of duplicates. */
  lemma {:induction false} SortByNoDuplicates<T>(s: seq<T>, le: (T, T) -> bool)
    requires NoDuplicates(s)
    ensures NoDuplicates(SortBy(s, le))
  {
    if s != [] {
      SortByNoDuplicates(s[1..], le);
      assert s[0] !in s[1..];
      SortByPermutation(s[1..], le);
      assert s[0] !in multiset(SortBy(s[1..], le));
      InsertNoDuplicates(s[0], SortBy(s[1..], le), le);
    }
  }

  /**
   * `OrderBy(k).First()`: the head of the sorted sequence precedes every
   * element and is the first element of `s` with the least key.
   */
  lemma SortByFirst<T(!new)>(s: seq<T>, le: (T, T) -> bool)
    requires TotalPreorder(le) && s != []
    ensures forall y :: y in s ==> le(SortBy(s, le)[0], y)
    ensures EquivalentTo(s, SortBy(s, le)[0], le) != []
    ensures EquivalentTo(s, SortBy(s, le)[0], le)[0] == SortBy(s, le)[0]
  {
    var r := SortBy(s, le);
    var h := r[0];
    SortBySorted(s, le);
    SortByPermutation(s, le);
    assert le(h, h);
    forall y | y in s ensures le(h, y) {
      assert y in multiset(r);
      var j :| 0 <= j < |r| && r[j] == y;
      SortedPairwise(r, le, 0, j);
    }
    SortByStable(s, h, le);
    assert r == [h] + r[1..];
  }
}
