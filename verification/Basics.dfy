/** Datatypes shared by every component. */
module Basics {
  datatype Option<+T> = None | Some(value: T)

  /** The largest `int` of the source. */
  const INT_MAX := 0x7FFF_FFFF

  /** A tablet cell: the address of one value in the key-value store. */
  datatype Cell = Cell(row: string, col: string)

  /** The value of `m` at `k`, if any. */
  function Lookup<K, V>(m: map<K, V>, k: K): Option<V> {
    if k in m then Some(m[k]) else None
  }

  /** `m` with `k` bound to `v`, or unbound when `v` is `None`. */
  function Update<K(!new), V>(m: map<K, V>, k: K, v: Option<V>): (m': map<K, V>)
    ensures Lookup(m', k) == v
    ensures forall k' :: k' != k ==> Lookup(m', k') == Lookup(m, k')
  {
    if v.Some? then m[k := v.value] else m - {k}
  }

  /** Maps that answer every lookup alike are equal. */
  lemma SameLookupsSameMap<K(!new), V(!new)>(a: map<K, V>, b: map<K, V>)
    requires forall k :: Lookup(a, k) == Lookup(b, k)
    ensures a == b
  {
    forall k
      ensures k in a <==> k in b
      ensures k in a ==> a[k] == b[k]
    {
      assert Lookup(a, k) == Lookup(b, k);
    }
    assert a.Keys == b.Keys;
  }

  /** The first position of `c` in `s` at or after `from`, or -1 (`std::string::npos`). */
  function IndexOf(s: string, c: char, from: nat): (i: int)
    requires from <= |s|
    ensures i == -1 ==> forall k :: from <= k < |s| ==> s[k] != c
    ensures i != -1 ==> from <= i < |s| && s[i] == c && forall k :: from <= k < i ==> s[k] != c
    decreases |s| - from
  {
    if from == |s| then -1 else if s[from] == c then from else IndexOf(s, c, from + 1)
  }

  predicate StartsWith(s: string, prefix: string) {
    |prefix| <= |s| && s[..|prefix|] == prefix
  }

  ghost predicate Distinct<T(!new)>(s: seq<T>) {
    forall i, j :: 0 <= i < j < |s| ==> s[i] != s[j]
  }

  lemma {:induction false} DistinctOnce<T(!new)>(s: seq<T>, x: T)
    requires Distinct(s)
    ensures multiset(s)[x] == if x in s then 1 else 0
  {
    if s != [] {
      var front, last := s[..|s| - 1], s[|s| - 1];
      assert s == front + [last];
      DistinctOnce(front, x);
    }
  }

  /** A permutation of distinct elements is distinct. */
  lemma PermutationDistinct<T(!new)>(s: seq<T>, t: seq<T>)
    requires Distinct(s) && multiset(s) == multiset(t)
    ensures Distinct(t)
  {
    forall i, j | 0 <= i < j < |t|
      ensures t[i] != t[j]
    {
      DistinctOnce(s, t[i]);
      assert t == t[..j] + [t[j]] + t[j + 1..];
      assert t[i] in t[..j];
    }
  }

  lemma Assoc(a: string, b: string, c: string)
    ensures a + b + c == a + (b + c)
  {
  }
}
