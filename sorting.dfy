/** A stable sort by an integer key, largest key first. Array.prototype.sort is stable,
    and every comparator in the dashboards and pages orders by one number (a date, a role
    rank, a gap in days), so each of those sorts is this one with its own key. */
module Sorting {

  /** Keys never increase from left to right. */
  predicate SortedDesc<T>(s: seq<T>, key: T -> int) {
    forall i, j :: 0 <= i < j < |s| ==> key(s[i]) >= key(s[j])
  }

  /** The elements whose key is k, in their order of appearance. */
  function WithKey<T>(s: seq<T>, key: T -> int, k: int): (r: seq<T>)
    ensures |r| <= |s|
    ensures forall x :: x in r ==> x in s && key(x) == k
  {
    if |s| == 0 then []
    else if key(s[0]) == k then [s[0]] + WithKey(s[1..], key, k)
    else WithKey(s[1..], key, k)
  }

  lemma {:induction false} WithKeyAppend<T>(a: seq<T>, b: seq<T>, key: T -> int, k: int)
    ensures WithKey(a + b, key, k) == WithKey(a, key, k) + WithKey(b, key, k)
  {
    if |a| == 0 {
      assert a + b == b;
    } else {
      assert (a + b)[1..] == a[1..] + b;
      WithKeyAppend(a[1..], b, key, k);
    }
  }

  lemma {:induction false} WithKeyNone<T>(s: seq<T>, key: T -> int, k: int)
    requires forall x :: x in s ==> key(x) != k
    ensures WithKey(s, key, k) == []
  {
    if |s| > 0 {
      assert forall x :: x in s[1..] ==> x in s;
      WithKeyNone(s[1..], key, k);
    }
  }

  /** The position at which x goes: after every element with a larger key. */
  function InsertPos<T>(x: T, s: seq<T>, key: T -> int): (i: nat)
    ensures i <= |s|
    ensures forall j :: 0 <= j < i ==> key(s[j]) > key(x)
    ensures i < |s| ==> key(s[i]) <= key(x)
  {
    if |s| == 0 || key(s[0]) <= key(x) then 0 else 1 + InsertPos(x, s[1..], key)
  }

  function Insert<T>(x: T, s: seq<T>, key: T -> int): seq<T> {
    var i := InsertPos(x, s, key);
    s[..i] + [x] + s[i..]
  }

  /** Insertion sort: each element goes in front of every later element with an equal or
      smaller key, which keeps equal keys in input order. */
  function SortDesc<T>(s: seq<T>, key: T -> int): seq<T> {
    if |s| == 0 then [] else Insert(s[0], SortDesc(s[1..], key), key)
  }

  lemma {:induction false} InsertSorted<T>(x: T, s: seq<T>, key: T -> int)
    requires SortedDesc(s, key)
    ensures SortedDesc(Insert(x, s, key), key)
  {
    var i := InsertPos(x, s, key);
    var r := Insert(x, s, key);
    forall a, b | 0 <= a < b < |r|
      ensures key(r[a]) >= key(r[b])
    {
      if b < i {
      } else if b == i {
      } else if a < i {
        assert r[b] == s[b - 1];
      } else if a == i {
        assert r[b] == s[b - 1];
      } else {
        assert r[a] == s[a - 1] && r[b] == s[b - 1];
      }
    }
  }

  lemma InsertMultiset<T>(x: T, s: seq<T>, key: T -> int)
    ensures multiset(Insert(x, s, key)) == multiset(s) + multiset{x}
  {
    var i := InsertPos(x, s, key);
    assert s == s[..i] + s[i..];
  }

  /** The result is ordered by key, largest first. */
  lemma {:induction false} SortDescSorted<T>(s: seq<T>, key: T -> int)
    ensures SortedDesc(SortDesc(s, key), key)
  {
    if |s| > 0 {
      SortDescSorted(s[1..], key);
      InsertSorted(s[0], SortDesc(s[1..], key), key);
    }
  }

  /** The result holds exactly the input elements. */
  lemma {:induction false} SortDescPermutation<T>(s: seq<T>, key: T -> int)
    ensures multiset(SortDesc(s, key)) == multiset(s)
  {
    if |s| > 0 {
      SortDescPermutation(s[1..], key);
      InsertMultiset(s[0], SortDesc(s[1..], key), key);
      assert s == [s[0]] + s[1..];
    }
  }

  /** Stability: the elements sharing a key keep their relative input order. */
  lemma {:induction false} SortDescStable<T>(s: seq<T>, key: T -> int, k: int)
    ensures WithKey(SortDesc(s, key), key, k) == WithKey(s, key, k)
  {
    if |s| > 0 {
      var t := SortDesc(s[1..], key);
      SortDescStable(s[1..], key, k);
      InsertStable(s[0], t, key, k);
      assert WithKey(s, key, k) == WithKey([s[0]], key, k) + WithKey(s[1..], key, k) by {
        assert s == [s[0]] + s[1..];
        WithKeyAppend([s[0]], s[1..], key, k);
      }
    }
  }

  /** Inserting x adds it to its key's group in front of the elements already there. */
  lemma InsertStable<T>(x: T, t: seq<T>, key: T -> int, k: int)
    ensures WithKey(Insert(x, t, key), key, k) == WithKey([x], key, k) + WithKey(t, key, k)
  {
    var i := InsertPos(x, t, key);
    assert t == t[..i] + t[i..];
    WithKeyAppend(t[..i] + [x], t[i..], key, k);
    WithKeyAppend(t[..i], [x], key, k);
    WithKeyAppend(t[..i], t[i..], key, k);
    if key(x) == k {
      assert forall y :: y in t[..i] ==> key(y) > k;
      WithKeyNone(t[..i], key, k);
    } else {
      assert WithKey([x], key, k) == [];
    }
  }

  lemma {:induction false} SortDescLength<T>(s: seq<T>, key: T -> int)
    ensures |SortDesc(s, key)| == |s|
  {
    if |s| > 0 { SortDescLength(s[1..], key); }
  }

  /** The result holds the same elements as the input, as many of them. */
  lemma SortDescElements<T>(s: seq<T>, key: T -> int)
    ensures |SortDesc(s, key)| == |s|
    ensures forall x :: x in SortDesc(s, key) <==> x in s
  {
    SortDescLength(s, key);
    SortDescPermutation(s, key);
    forall x ensures x in SortDesc(s, key) <==> x in s {
      assert x in SortDesc(s, key) <==> x in multiset(SortDesc(s, key));
      assert x in s <==> x in multiset(s);
    }
  }
}
