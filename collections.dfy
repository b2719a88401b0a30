/**
 * The in-memory stand-in for the document store's query primitives: a
 * filter (`find(query)`), a sort on a numeric key in descending order
 * (`sort({ createdAt: -1 })`) and a lookup by identifier (`findById`).
 */
module Collections {

  datatype Option<+T> = None | Some(value: T)

  /** The elements of `s` that satisfy `p`, in their original order. */
  function Filter<T>(s: seq<T>, p: T -> bool): (r: seq<T>)
    ensures |r| <= |s|
    ensures forall i :: 0 <= i < |r| ==> p(r[i])
    ensures multiset(r) <= multiset(s)
  {
    if s == [] then []
    else
      assert s == [s[0]] + s[1..];
      if p(s[0]) then [s[0]] + Filter(s[1..], p)
      else Filter(s[1..], p)
  }

  /** An element survives the filter exactly when it is in `s` and satisfies `p`. */
  lemma {:induction false} FilterMembers<T>(s: seq<T>, p: T -> bool, x: T)
    ensures x in Filter(s, p) <==> x in s && p(x)
  {
    if s != [] {
      FilterMembers(s[1..], p, x);
      assert x in s <==> x == s[0] || x in s[1..];
    }
  }

  /** Filtering distributes over concatenation, so it keeps the relative order of what it keeps. */
  lemma {:induction false} FilterAppend<T>(a: seq<T>, b: seq<T>, p: T -> bool)
    ensures Filter(a + b, p) == Filter(a, p) + Filter(b, p)
  {
    if a == [] {
      assert a + b == b;
    } else {
      assert (a + b)[1..] == a[1..] + b;
      FilterAppend(a[1..], b, p);
    }
  }

  /** A filter that keeps everything is the identity. */
  lemma {:induction false} FilterKeepsAll<T>(s: seq<T>, p: T -> bool)
    requires forall i :: 0 <= i < |s| ==> p(s[i])
    ensures Filter(s, p) == s
  {
    if s != [] {
      FilterKeepsAll(s[1..], p);
    }
  }

  ghost predicate SortedDesc<T>(s: seq<T>, key: T -> int)
  {
    forall i, j :: 0 <= i < j < |s| ==> key(s[i]) >= key(s[j])
  }

  /** Puts `x` in front of the first element with a smaller key. */
  function InsertDesc<T>(x: T, s: seq<T>, key: T -> int): (r: seq<T>)
    requires SortedDesc(s, key)
    ensures |r| == |s| + 1
    ensures r[0] == x || (s != [] && r[0] == s[0])
    ensures SortedDesc(r, key)
    ensures multiset(r) == multiset(s) + multiset{x}
  {
    if s == [] || key(x) >= key(s[0]) then
      [x] + s
    else
      var rest := InsertDesc(x, s[1..], key);
      assert s == [s[0]] + s[1..];
      assert key(s[0]) >= key(rest[0]);
      [s[0]] + rest
  }

  /**
   * Sorts by `key`, largest first. Among equal keys the earlier element stays
   * first; the document store promises no particular order for such ties.
   */
  function SortDesc<T>(s: seq<T>, key: T -> int): (r: seq<T>)
    ensures SortedDesc(r, key)
    ensures multiset(r) == multiset(s)
  {
    if s == [] then []
    else
      assert s == [s[0]] + s[1..];
      InsertDesc(s[0], SortDesc(s[1..], key), key)
  }

  /** Sorting keeps exactly the elements it was given. */
  lemma SortDescSameElements<T>(s: seq<T>, key: T -> int)
    ensures |SortDesc(s, key)| == |s|
    ensures forall x :: x in SortDesc(s, key) <==> x in s
  {
    var r := SortDesc(s, key);
    assert |r| == |multiset(r)| == |multiset(s)| == |s|;
    forall x ensures x in r <==> x in s {
      assert x in r <==> x in multiset(r);
      assert x in s <==> x in multiset(s);
    }
  }

  /**
   * The first `n` elements, or all of them when `n` is 0 (no limit) or the
   * sequence is no longer than `n`: a `limit(n)` on a query result.
   */
  function Take<T>(s: seq<T>, n: nat): (r: seq<T>)
    ensures n == 0 || |s| <= n ==> r == s
    ensures 0 < n < |s| ==> r == s[..n]
    ensures multiset(r) <= multiset(s)
    ensures forall x :: x in r ==> x in s
  {
    if n == 0 || |s| <= n then s
    else
      assert s == s[..n] + s[n..];
      s[..n]
  }

  /** Position of the first element whose identifier is `id`, if there is one. */
  function IndexOf<T>(s: seq<T>, idOf: T -> nat, id: nat): (r: Option<nat>)
    ensures r.None? <==> forall i :: 0 <= i < |s| ==> idOf(s[i]) != id
    ensures r.Some? ==> r.value < |s| && idOf(s[r.value]) == id
    ensures r.Some? ==> forall i :: 0 <= i < r.value ==> idOf(s[i]) != id
  {
    if s == [] then None
    else if idOf(s[0]) == id then Some(0)
    else
      match IndexOf(s[1..], idOf, id)
      case None => None
      case Some(k) => Some(k + 1)
  }

  /** No two elements share an identifier. */
  ghost predicate UniqueIds<T>(s: seq<T>, idOf: T -> nat)
  {
    forall i, j :: 0 <= i < j < |s| ==> idOf(s[i]) != idOf(s[j])
  }

  /** Removing the element at `i` from a list of unique identifiers removes exactly the one with that identifier. */
  lemma RemoveAtUnique<T>(s: seq<T>, idOf: T -> nat, i: nat)
    requires i < |s| && UniqueIds(s, idOf)
    ensures UniqueIds(s[..i] + s[i + 1..], idOf)
    ensures forall x :: x in s[..i] + s[i + 1..] <==> x in s && idOf(x) != idOf(s[i])
  {
    var r := s[..i] + s[i + 1..];
    assert forall k :: 0 <= k < |r| ==> r[k] == s[if k < i then k else k + 1];
    forall x ensures x in r <==> x in s && idOf(x) != idOf(s[i]) {
      if x in s && idOf(x) != idOf(s[i]) {
        var k :| 0 <= k < |s| && s[k] == x;
        assert k != i;
        assert r[if k < i then k else k - 1] == x;
      }
    }
  }

  /**
   * What a store of documents keeps: every document is acceptable, no two share
   * an identifier, and every identifier is below the next one to be handed out.
   */
  ghost predicate StoreInvariant<T>(s: seq<T>, idOf: T -> nat, ok: T -> bool, nextId: nat)
  {
    && (forall i :: 0 <= i < |s| ==> idOf(s[i]) < nextId && ok(s[i]))
    && UniqueIds(s, idOf)
  }

  /** Inserting a document under a fresh identifier keeps the invariant. */
  lemma StoreAppend<T>(s: seq<T>, idOf: T -> nat, ok: T -> bool, nextId: nat, x: T)
    requires StoreInvariant(s, idOf, ok, nextId)
    requires idOf(x) == nextId && ok(x)
    ensures StoreInvariant(s + [x], idOf, ok, nextId + 1)
  {
  }

  /** Replacing a document by an acceptable one with the same identifier keeps the invariant. */
  lemma StoreReplace<T>(s: seq<T>, idOf: T -> nat, ok: T -> bool, nextId: nat, i: nat, x: T)
    requires StoreInvariant(s, idOf, ok, nextId)
    requires i < |s| && idOf(x) == idOf(s[i]) && ok(x)
    ensures StoreInvariant(s[i := x], idOf, ok, nextId)
  {
  }

  /** Removing one document keeps the invariant and removes exactly the documents with its identifier. */
  lemma StoreRemove<T>(s: seq<T>, idOf: T -> nat, ok: T -> bool, nextId: nat, i: nat)
    requires StoreInvariant(s, idOf, ok, nextId)
    requires i < |s|
    ensures StoreInvariant(s[..i] + s[i + 1..], idOf, ok, nextId)
    ensures forall x :: x in s[..i] + s[i + 1..] <==> x in s && idOf(x) != idOf(s[i])
  {
    RemoveAtUnique(s, idOf, i);
    var r := s[..i] + s[i + 1..];
    assert forall k :: 0 <= k < |r| ==> r[k] == s[if k < i then k else k + 1];
  }

  /** Keeping only some of the documents keeps the invariant. */
  lemma {:induction false} StoreFilter<T>(s: seq<T>, idOf: T -> nat, ok: T -> bool, nextId: nat, p: T -> bool)
    requires StoreInvariant(s, idOf, ok, nextId)
    ensures StoreInvariant(Filter(s, p), idOf, ok, nextId)
  {
    if s != [] {
      StoreFilter(s[1..], idOf, ok, nextId, p);
      var rest := Filter(s[1..], p);
      forall k | 0 <= k < |rest| ensures idOf(rest[k]) != idOf(s[0]) && idOf(rest[k]) < nextId && ok(rest[k]) {
        FilterMembers(s[1..], p, rest[k]);
        var j :| 0 <= j < |s[1..]| && s[1..][j] == rest[k];
        assert s[j + 1] == rest[k];
      }
    }
  }
}
