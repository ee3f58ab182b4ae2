/** Sorting by a key, and searching in a sorted list. */
module Sorting {

  /** Nothing is listed twice. */
  ghost predicate Distinct<T>(s: seq<T>)
  {
    forall a, b :: 0 <= a < b < |s| ==> s[a] != s[b]
  }

  /** Of lists without duplicates: the one is a permutation of the other. */
  ghost predicate SameMembers<T(!new)>(s: seq<T>, t: seq<T>)
  {
    |s| == |t| && forall e :: e in s <==> e in t
  }

  ghost predicate Ascends<T>(s: seq<T>, key: T -> real)
  {
    forall a, b :: 0 <= a < b < |s| ==> key(s[a]) <= key(s[b])
  }

  ghost predicate StrictlyAscends<T>(s: seq<T>, key: T -> real)
  {
    forall a, b :: 0 <= a < b < |s| ==> key(s[a]) < key(s[b])
  }

  ghost predicate KeysDiffer<T>(s: seq<T>, key: T -> real)
  {
    forall a, b :: 0 <= a < b < |s| ==> key(s[a]) != key(s[b])
  }

  function InsertedAt<T>(s: seq<T>, e: T, k: nat): (r: seq<T>)
    requires k <= |s|
    ensures |r| == |s| + 1
    ensures forall i :: 0 <= i < |r| ==> r[i] == if i < k then s[i] else if i == k then e else s[i - 1]
  {
    s[..k] + [e] + s[k..]
  }

  lemma {:induction false} InsertedMembers<T(!new)>(s: seq<T>, e: T, k: nat)
    requires k <= |s| && Distinct(s) && e !in s
    ensures Distinct(InsertedAt(s, e, k)) && SameMembers(InsertedAt(s, e, k), s + [e])
  {
    assert s == s[..k] + s[k..];
  }

  lemma {:induction false} InsertedAscends<T>(s: seq<T>, e: T, key: T -> real, k: nat)
    requires Ascends(s, key) && k <= |s| && (k > 0 ==> key(s[k - 1]) <= key(e))
    requires forall i :: k <= i < |s| ==> key(s[i]) > key(e)
    ensures Ascends(InsertedAt(s, e, k), key)
  {
    var r := InsertedAt(s, e, k);
    forall a, b | 0 <= a < b < |r|
      ensures key(r[a]) <= key(r[b])
    {
      assert a < k - 1 ==> key(s[a]) <= key(s[k - 1]);
    }
  }

  method Insert<T(!new)>(s: seq<T>, e: T, key: T -> real) returns (r: seq<T>)
    requires Ascends(s, key) && Distinct(s) && e !in s
    ensures Ascends(r, key) && Distinct(r) && SameMembers(r, s + [e])
  {
    var k := |s|;
    while k > 0 && key(s[k - 1]) > key(e)
      invariant 0 <= k <= |s| && forall i :: k <= i < |s| ==> key(s[i]) > key(e)
    {
      k := k - 1;
    }
    r := InsertedAt(s, e, k);
    InsertedMembers(s, e, k);
    InsertedAscends(s, e, key, k);
  }

  lemma {:induction false} DifferentKeys<T(!new)>(s: seq<T>, r: seq<T>, key: T -> real)
    requires Ascends(r, key) && Distinct(r) && SameMembers(r, s) && KeysDiffer(s, key)
    ensures StrictlyAscends(r, key)
  {
    forall a, b | 0 <= a < b < |r|
      ensures key(r[a]) < key(r[b])
    {
      assert r[a] in s && r[b] in s;
      var i :| 0 <= i < |s| && s[i] == r[a];
      var j :| 0 <= j < |s| && s[j] == r[b];
      assert i != j;
    }
  }

  /** The list in the order of the keys. */
  method Sort<T(!new)>(s: seq<T>, key: T -> real) returns (r: seq<T>)
    requires Distinct(s)
    ensures Ascends(r, key) && Distinct(r) && SameMembers(r, s)
    ensures KeysDiffer(s, key) ==> StrictlyAscends(r, key)
  {
    r := [];
    for i := 0 to |s|
      invariant Ascends(r, key) && Distinct(r) && SameMembers(r, s[..i])
    {
      r := Insert(r, s[i], key);
      assert s[..i + 1] == s[..i] + [s[i]];
    }
    assert s[..|s|] == s;
    if KeysDiffer(s, key) { DifferentKeys(s, r, key); }
  }

  /** std::lower_bound: the first index whose entry is not below what is searched for. */
  method LowerBound<T>(s: seq<T>, below: T -> bool) returns (k: nat)
    requires forall a, b :: 0 <= a < b < |s| && below(s[b]) ==> below(s[a])
    ensures k <= |s|
    ensures forall i :: 0 <= i < k ==> below(s[i])
    ensures forall i :: k <= i < |s| ==> !below(s[i])
  {
    k := 0;
    var high := |s|;
    while k < high
      invariant 0 <= k <= high <= |s|
      invariant forall i :: 0 <= i < k ==> below(s[i])
      invariant forall i :: high <= i < |s| ==> !below(s[i])
    {
      var middle := (k + high) / 2;
      if below(s[middle]) { k := middle + 1; } else { high := middle; }
    }
  }
}
