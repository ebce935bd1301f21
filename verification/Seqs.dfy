/** Orders, permutations and sorting shared by the other modules.

    Go's `sort.Slice` is not stable: all it promises is a permutation of its
    argument in which no element is preceded by a smaller one.  `SortSlice` and
    `SortInPlace` promise exactly that, and callers see nothing else. */
module Seqs {

  ghost predicate TotalPreorder<T(!new)>(leq: (T, T) -> bool) {
    && (forall x, y :: leq(x, y) || leq(y, x))
    && (forall x, y, z :: leq(x, y) && leq(y, z) ==> leq(x, z))
  }

  ghost predicate SortedBy<T>(s: seq<T>, leq: (T, T) -> bool) {
    forall i, j :: 0 <= i < j < |s| ==> leq(s[i], s[j])
  }

  function IntLeq(): (int, int) -> bool { (x, y) => x <= y }

  function Min(x: int, y: int): int { if x <= y then x else y }
  function Max(x: int, y: int): int { if x <= y then y else x }

  ghost predicate Permutation<T>(a: seq<T>, b: seq<T>) {
    multiset(a) == multiset(b)
  }

  ghost predicate SortedPermutation<T>(r: seq<T>, s: seq<T>, leq: (T, T) -> bool) {
    Permutation(r, s) && SortedBy(r, leq)
  }

  /** Elements the order cannot tell apart are the same element. */
  ghost predicate NoTies<T>(s: seq<T>, leq: (T, T) -> bool) {
    forall i, j :: 0 <= i < |s| && 0 <= j < |s| && leq(s[i], s[j]) && leq(s[j], s[i]) ==> s[i] == s[j]
  }

  ghost predicate Distinct<T>(s: seq<T>) {
    forall i, j :: 0 <= i < j < |s| ==> s[i] != s[j]
  }

  function Insert<T>(x: T, s: seq<T>, leq: (T, T) -> bool): (r: seq<T>)
    ensures multiset(r) == multiset(s) + multiset{x}
    ensures |r| == |s| + 1
  {
    if s == [] || leq(x, if s == [] then x else s[0]) then [x] + s
    else
      assert s == [s[0]] + s[1..];
      [s[0]] + Insert(x, s[1..], leq)
  }

  lemma {:induction false} InsertSorted<T(!new)>(x: T, s: seq<T>, leq: (T, T) -> bool)
    requires TotalPreorder(leq) && SortedBy(s, leq)
    ensures SortedBy(Insert(x, s, leq), leq)
  {
    if s != [] && !leq(x, s[0]) {
      InsertSorted(x, s[1..], leq);
      var r := Insert(x, s[1..], leq);
      forall k | 0 <= k < |r| ensures leq(s[0], r[k]) {
        assert r[k] in multiset(r);
        assert r[k] in multiset(s[1..]) + multiset{x};
        assert r[k] == x || r[k] in s[1..];
      }
    }
  }

  /** `sort.Slice` applied to a value. */
  method SortSlice<T(!new)>(s: seq<T>, leq: (T, T) -> bool) returns (r: seq<T>)
    requires TotalPreorder(leq)
    ensures SortedPermutation(r, s, leq)
  {
    r := [];
    for i := 0 to |s|
      invariant multiset(r) == multiset(s[..i])
      invariant SortedBy(r, leq)
    {
      InsertSorted(s[i], r, leq);
      r := Insert(s[i], r, leq);
      assert s[..i + 1] == s[..i] + [s[i]];
    }
    assert s[..|s|] == s;
  }

  /** `sort.Slice` applied to a slice that stays where it is. */
  method SortInPlace<T(!new)>(a: array<T>, leq: (T, T) -> bool)
    requires TotalPreorder(leq)
    modifies a
    ensures SortedPermutation(a[..], old(a[..]), leq)
  {
    var r := SortSlice(a[..], leq);
    PermutationLength(r, a[..]);
    forall i | 0 <= i < a.Length { a[i] := r[i]; }
    assert a[..] == r;
  }

  lemma {:induction false} PermutationLength<T>(a: seq<T>, b: seq<T>)
    requires Permutation(a, b)
    ensures |a| == |b|
  {
    assert |multiset(a)| == |a| && |multiset(b)| == |b|;
  }

  lemma {:induction false} PermutationMember<T>(a: seq<T>, b: seq<T>, x: T)
    requires Permutation(a, b)
    ensures x in a <==> x in b
  {
    assert x in a <==> x in multiset(a);
    assert x in b <==> x in multiset(b);
  }

  /** A sorted permutation exists. */
  lemma {:induction false} SortedPermutationExists<T(!new)>(s: seq<T>, leq: (T, T) -> bool) returns (r: seq<T>)
    requires TotalPreorder(leq)
    ensures SortedPermutation(r, s, leq)
  {
    if s == [] {
      r := [];
    } else {
      var t := SortedPermutationExists(s[1..], leq);
      InsertSorted(s[0], t, leq);
      r := Insert(s[0], t, leq);
      assert s == [s[0]] + s[1..];
    }
  }

  lemma {:induction false} SameHead<T(!new)>(a: seq<T>, b: seq<T>, leq: (T, T) -> bool)
    requires TotalPreorder(leq) && Permutation(a, b) && a != [] && b != []
    requires SortedBy(a, leq) && SortedBy(b, leq) && NoTies(a, leq)
    ensures a[0] == b[0]
  {
    PermutationMember(a, b, a[0]);
    PermutationMember(a, b, b[0]);
    var i :| 0 <= i < |b| && b[i] == a[0];
    var j :| 0 <= j < |a| && a[j] == b[0];
    assert leq(a[0], a[0]) && leq(b[0], b[0]);
    assert leq(a[0], a[j]) && leq(b[0], b[i]);
  }

  lemma {:induction false} SameTail<T>(a: seq<T>, b: seq<T>)
    requires Permutation(a, b) && a != [] && b != [] && a[0] == b[0]
    ensures Permutation(a[1..], b[1..])
  {
    assert a == [a[0]] + a[1..] && b == [b[0]] + b[1..];
    assert multiset(a[1..]) == multiset(a) - multiset{a[0]};
    assert multiset(b[1..]) == multiset(b) - multiset{b[0]};
  }

  /** Without ties, sorting has one outcome. */
  lemma {:induction false} SortedPermutationUnique<T(!new)>(a: seq<T>, b: seq<T>, leq: (T, T) -> bool)
    requires TotalPreorder(leq) && Permutation(a, b)
    requires SortedBy(a, leq) && SortedBy(b, leq) && NoTies(a, leq)
    ensures a == b
    decreases |a|
  {
    hide TotalPreorder;
    PermutationLength(a, b);
    if a != [] {
      SameHead(a, b, leq);
      SameTail(a, b);
      SortedPermutationUnique(a[1..], b[1..], leq);
    }
  }

  /** With a tie between different elements, sorting has at least two outcomes. */
  lemma {:induction false} TwoSortedPermutations<T(!new)>(s: seq<T>, leq: (T, T) -> bool) returns (a: seq<T>, b: seq<T>)
    requires TotalPreorder(leq) && !NoTies(s, leq)
    ensures SortedPermutation(a, s, leq) && SortedPermutation(b, s, leq) && a != b
  {
    a := SortedPermutationExists(s, leq);
    var i, j :| 0 <= i < |s| && 0 <= j < |s| && leq(s[i], s[j]) && leq(s[j], s[i]) && s[i] != s[j];
    PermutationMember(a, s, s[i]);
    PermutationMember(a, s, s[j]);
    var k :| 0 <= k < |a| && a[k] == s[i];
    var l :| 0 <= l < |a| && a[l] == s[j];
    b := a[k := a[l]][l := a[k]];
    SwapTied(a, k, l, leq);
  }

  lemma {:induction false} SwapTied<T(!new)>(a: seq<T>, k: nat, l: nat, leq: (T, T) -> bool)
    requires TotalPreorder(leq) && SortedBy(a, leq)
    requires k < |a| && l < |a| && k != l && leq(a[k], a[l]) && leq(a[l], a[k])
    ensures SortedPermutation(a[k := a[l]][l := a[k]], a, leq)
  {}

  /** Sorting is deterministic exactly when equal keys mean equal elements. */
  lemma {:induction false} SortDeterministicIff<T(!new)>(s: seq<T>, leq: (T, T) -> bool)
    requires TotalPreorder(leq)
    ensures NoTies(s, leq) <==>
            (forall a, b :: SortedPermutation(a, s, leq) && SortedPermutation(b, s, leq) ==> a == b)
  {
    if NoTies(s, leq) {
      forall a, b | SortedPermutation(a, s, leq) && SortedPermutation(b, s, leq) ensures a == b {
        forall i, j | 0 <= i < |a| && 0 <= j < |a| && leq(a[i], a[j]) && leq(a[j], a[i]) ensures a[i] == a[j] {
          PermutationMember(a, s, a[i]);
          PermutationMember(a, s, a[j]);
        }
        SortedPermutationUnique(a, b, leq);
      }
    } else {
      var a, b := TwoSortedPermutations(s, leq);
    }
  }

  // ---------------------------------------------------------------------
  // Byte order on strings, the `<` of Go

  predicate StringLeq(a: string, b: string) {
    if a == [] then true
    else if b == [] then false
    else if a[0] == b[0] then StringLeq(a[1..], b[1..])
    else a[0] < b[0]
  }

  lemma {:induction false} StringLeqTotal(a: string, b: string)
    ensures StringLeq(a, b) || StringLeq(b, a)
    ensures StringLeq(a, b) && StringLeq(b, a) ==> a == b
  {
    if a != [] && b != [] && a[0] == b[0] {
      StringLeqTotal(a[1..], b[1..]);
      assert a == [a[0]] + a[1..] && b == [b[0]] + b[1..];
    }
  }

  lemma {:induction false} StringLeqTransitive(a: string, b: string, c: string)
    requires StringLeq(a, b) && StringLeq(b, c)
    ensures StringLeq(a, c)
  {
    if a != [] && b != [] && c != [] && a[0] == b[0] == c[0] {
      StringLeqTransitive(a[1..], b[1..], c[1..]);
    }
  }

  /** Dictionary order: a prefix, or smaller at the first difference. */
  ghost predicate Precedes(a: string, b: string) { a <= b || exists k :: SmallerAt(a, b, k) }

  ghost predicate SmallerAt(a: string, b: string, k: int) {
    0 <= k < |a| && k < |b| && (forall j :: 0 <= j < k ==> a[j] == b[j]) && a[k] < b[k]
  }

  lemma {:induction false} StringLeqIff(a: string, b: string)
    ensures StringLeq(a, b) <==> Precedes(a, b)
  {
    if a != [] && b != [] {
      if a[0] == b[0] {
        StringLeqIff(a[1..], b[1..]);
        assert a == [a[0]] + a[1..] && b == [b[0]] + b[1..];
        if k :| SmallerAt(a, b, k) { assert SmallerAt(a[1..], b[1..], k - 1); }
        if k :| SmallerAt(a[1..], b[1..], k) {
          assert forall j :: 1 <= j < k + 1 ==> a[j] == a[1..][j - 1] && b[j] == b[1..][j - 1];
          assert SmallerAt(a, b, k + 1);
        }
      } else {
        assert SmallerAt(a, b, 0) <==> a[0] < b[0];
        assert forall k :: SmallerAt(a, b, k) && k > 0 ==> a[0] == b[0];
      }
    }
  }

  /** Any key order by strings is a total preorder. */
  lemma {:induction false} StringKeyPreorder<T(!new)>(key: T -> string, leq: (T, T) -> bool)
    requires forall x, y :: leq(x, y) == StringLeq(key(x), key(y))
    ensures TotalPreorder(leq)
  {
    forall x, y ensures leq(x, y) || leq(y, x) { StringLeqTotal(key(x), key(y)); }
    forall x, y, z | leq(x, y) && leq(y, z) ensures leq(x, z) { StringLeqTransitive(key(x), key(y), key(z)); }
  }

  // ---------------------------------------------------------------------
  // Enumerating a map or a set: Go visits the keys in any order

  /** `order` visits every member of `s` exactly once. */
  ghost predicate Enumerates<T(!new)>(order: seq<T>, s: set<T>) {
    Distinct(order) && (forall x :: x in order <==> x in s)
  }

  method Enumerate<T(==,!new)>(s: set<T>) returns (order: seq<T>)
    ensures Enumerates(order, s)
  {
    order := [];
    var todo := s;
    while todo != {}
      invariant todo <= s && Distinct(order)
      invariant forall x :: x in order <==> x in s && x !in todo
      decreases |todo|
    {
      var k :| k in todo;
      todo := todo - {k};
      order := order + [k];
    }
  }

  lemma {:induction false} DistinctCounts<T>(s: seq<T>)
    ensures Distinct(s) <==> forall x :: x in s ==> multiset(s)[x] <= 1
  {
    if s != [] {
      var h, t := s[0], s[1..];
      DistinctCounts(t);
      assert s == [h] + t;
      assert multiset(s) == multiset{h} + multiset(t);
      assert h in t <==> h in multiset(t);
      assert Distinct(s) <==> Distinct(t) && h !in t by {
        assert forall i :: 0 <= i < |t| ==> t[i] == s[i + 1];
      }
      forall x | x in t ensures multiset(s)[x] == multiset(t)[x] + (if x == h then 1 else 0) {}
    }
  }

  lemma {:induction false} DistinctPermutation<T>(a: seq<T>, b: seq<T>)
    requires Permutation(a, b) && Distinct(a)
    ensures Distinct(b)
  {
    DistinctCounts(a);
    DistinctCounts(b);
    forall x | x in b ensures multiset(b)[x] <= 1 { PermutationMember(a, b, x); }
  }

  /** Two repetition-free lists of the same elements are permutations of each other. */
  lemma {:induction false} SameElements<T(!new)>(a: seq<T>, b: seq<T>)
    requires Distinct(a) && Distinct(b) && forall x :: x in a <==> x in b
    ensures Permutation(a, b)
  {
    DistinctCounts(a);
    DistinctCounts(b);
    forall x ensures multiset(a)[x] == multiset(b)[x] {
      assert x in a <==> x in multiset(a);
      assert x in b <==> x in multiset(b);
    }
  }

  function SumOf(s: seq<int>): int {
    if s == [] then 0 else s[0] + SumOf(s[1..])
  }

  lemma {:induction false} SumOfAppend(s: seq<int>, t: seq<int>)
    ensures SumOf(s + t) == SumOf(s) + SumOf(t)
  {
    if s == [] {
      assert s + t == t;
    } else {
      assert (s + t)[1..] == s[1..] + t;
      SumOfAppend(s[1..], t);
    }
  }

  // ---------------------------------------------------------------------
  // Counting

  function Count<T>(s: seq<T>, p: T -> bool): (n: nat)
    ensures n <= |s|
  {
    if s == [] then 0 else (if p(s[0]) then 1 else 0) + Count(s[1..], p)
  }

  lemma {:induction false} CountConcat<T>(s: seq<T>, t: seq<T>, p: T -> bool)
    ensures Count(s + t, p) == Count(s, p) + Count(t, p)
  {
    if s == [] {
      assert s + t == t;
    } else {
      assert (s + t)[1..] == s[1..] + t;
      CountConcat(s[1..], t, p);
    }
  }

  /** Taking one element out of both sides of a permutation leaves one. */
  lemma {:induction false} RemoveOne<T>(a: seq<T>, b: seq<T>, i: nat)
    requires Permutation(a, b) && a != [] && i < |b| && b[i] == a[0]
    ensures Permutation(a[1..], b[..i] + b[i + 1..])
  {
    assert a == [a[0]] + a[1..];
    assert b == b[..i] + [b[i]] + b[i + 1..];
    assert multiset(a[1..]) == multiset(a) - multiset{a[0]};
    assert multiset(b[..i] + b[i + 1..]) == multiset(b) - multiset{b[i]};
  }

  lemma {:induction false} CountAround<T>(b: seq<T>, i: nat, p: T -> bool)
    requires i < |b|
    ensures Count(b, p) == (if p(b[i]) then 1 else 0) + Count(b[..i] + b[i + 1..], p)
  {
    assert b == b[..i] + ([b[i]] + b[i + 1..]);
    CountConcat(b[..i], b[i + 1..], p);
    CountConcat(b[..i], [b[i]] + b[i + 1..], p);
    assert ([b[i]] + b[i + 1..])[1..] == b[i + 1..];
  }

  lemma {:induction false} CountPermutation<T>(a: seq<T>, b: seq<T>, p: T -> bool)
    requires Permutation(a, b)
    ensures Count(a, p) == Count(b, p)
  {
    PermutationLength(a, b);
    if a != [] {
      PermutationMember(a, b, a[0]);
      var i :| 0 <= i < |b| && b[i] == a[0];
      RemoveOne(a, b, i);
      CountPermutation(a[1..], b[..i] + b[i + 1..], p);
      CountAround(b, i, p);
    }
  }
}
