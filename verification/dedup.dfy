/**
 * pandas `drop_duplicates(subset=..., keep='last')` over a key function: a row
 * survives iff no later row has the same key, and survivors keep their order.
 */
module Dedup {

  function Keys<T, K>(s: seq<T>, key: T -> K): (ks: set<K>)
    ensures forall i :: 0 <= i < |s| ==> key(s[i]) in ks
  {
    if s == [] then {} else {key(s[0])} + Keys(s[1..], key)
  }

  function DedupLast<T, K(==)>(s: seq<T>, key: T -> K): seq<T>
  {
    if s == [] then []
    else if key(s[0]) in Keys(s[1..], key) then DedupLast(s[1..], key)
    else [s[0]] + DedupLast(s[1..], key)
  }

  /** The rows whose key is not in `ks` (a boolean-mask filter such as `~df[c].isin(...)`). */
  function WithoutKeys<T, K(==)>(s: seq<T>, ks: set<K>, key: T -> K): (r: seq<T>)
    ensures |r| <= |s|
  {
    if s == [] then []
    else if key(s[0]) in ks then WithoutKeys(s[1..], ks, key)
    else [s[0]] + WithoutKeys(s[1..], ks, key)
  }

  ghost predicate UniqueKeys<T, K>(s: seq<T>, key: T -> K)
  {
    forall i, j :: 0 <= i < j < |s| ==> key(s[i]) != key(s[j])
  }

  /** `a` is `b` with some elements left out, the rest in their order. */
  ghost predicate IsSubsequence<T>(a: seq<T>, b: seq<T>)
    decreases |b|
  {
    a == [] || (b != [] && ((a[0] == b[0] && IsSubsequence(a[1..], b[1..])) || IsSubsequence(a, b[1..])))
  }

  /** The last row of `s` whose key is `k`. */
  function LastWithKey<T, K(==)>(s: seq<T>, k: K, key: T -> K): (r: T)
    requires k in Keys(s, key)
    ensures key(r) == k
    ensures r in s
  {
    if k in Keys(s[1..], key) then LastWithKey(s[1..], k, key) else s[0]
  }

  lemma {:induction false} KeysMember<T, K>(s: seq<T>, key: T -> K, k: K)
    ensures k in Keys(s, key) <==> exists i :: 0 <= i < |s| && key(s[i]) == k
  {
    if s != [] {
      KeysMember(s[1..], key, k);
      if k in Keys(s[1..], key) {
        var i :| 0 <= i < |s[1..]| && key(s[1..][i]) == k;
        assert key(s[i + 1]) == k;
      }
      if exists i :: 0 <= i < |s| && key(s[i]) == k {
        var i :| 0 <= i < |s| && key(s[i]) == k;
        if i > 0 {
          assert key(s[1..][i - 1]) == k;
        }
      }
    }
  }

  lemma {:induction false} KeysAppend<T, K>(a: seq<T>, b: seq<T>, key: T -> K)
    ensures Keys(a + b, key) == Keys(a, key) + Keys(b, key)
  {
    if a != [] {
      assert (a + b)[1..] == a[1..] + b;
      KeysAppend(a[1..], b, key);
    } else {
      assert a + b == b;
    }
  }

  lemma {:induction false} DedupKeys<T, K>(s: seq<T>, key: T -> K)
    ensures Keys(DedupLast(s, key), key) == Keys(s, key)
  {
    if s != [] {
      DedupKeys(s[1..], key);
    }
  }

  lemma {:induction false} WithoutKeysKeys<T, K>(s: seq<T>, ks: set<K>, key: T -> K)
    ensures Keys(WithoutKeys(s, ks, key), key) == Keys(s, key) - ks
  {
    if s != [] {
      WithoutKeysKeys(s[1..], ks, key);
    }
  }

  /** At most one row per key survives. */
  lemma {:induction false} DedupUnique<T, K>(s: seq<T>, key: T -> K)
    ensures UniqueKeys(DedupLast(s, key), key)
  {
    if s != [] {
      var rest := DedupLast(s[1..], key);
      DedupUnique(s[1..], key);
      if key(s[0]) !in Keys(s[1..], key) {
        DedupKeys(s[1..], key);
        var r := [s[0]] + rest;
        forall i, j | 0 <= i < j < |r| ensures key(r[i]) != key(r[j]) {
          if i == 0 {
            KeysMember(rest, key, key(r[j]));
            assert r[j] == rest[j - 1];
          } else {
            assert r[i] == rest[i - 1] && r[j] == rest[j - 1];
          }
        }
      }
    }
  }

  lemma {:induction false} DedupOfUnique<T, K>(s: seq<T>, key: T -> K)
    requires UniqueKeys(s, key)
    ensures DedupLast(s, key) == s
  {
    if s != [] {
      DedupOfUnique(s[1..], key);
      KeysMember(s[1..], key, key(s[0]));
      forall i | 0 <= i < |s[1..]| ensures key(s[1..][i]) != key(s[0]) {
        assert s[1..][i] == s[i + 1];
      }
    }
  }

  /** Deduplicating twice is deduplicating once. */
  lemma DedupIdempotent<T, K>(s: seq<T>, key: T -> K)
    ensures DedupLast(DedupLast(s, key), key) == DedupLast(s, key)
  {
    DedupUnique(s, key);
    DedupOfUnique(DedupLast(s, key), key);
  }

  /** Survivors keep their relative order. */
  lemma {:induction false} DedupSubsequence<T, K>(s: seq<T>, key: T -> K)
    ensures IsSubsequence(DedupLast(s, key), s)
  {
    if s != [] {
      DedupSubsequence(s[1..], key);
      var r := DedupLast(s, key);
      if key(s[0]) !in Keys(s[1..], key) {
        assert r[0] == s[0] && r[1..] == DedupLast(s[1..], key);
      }
    }
  }

  /** Every survivor is the last row of the input with its key. */
  lemma {:induction false} DedupKeepsLast<T, K>(s: seq<T>, key: T -> K)
    ensures forall i :: 0 <= i < |DedupLast(s, key)| ==>
      key(DedupLast(s, key)[i]) in Keys(s, key) &&
      DedupLast(s, key)[i] == LastWithKey(s, key(DedupLast(s, key)[i]), key)
  {
    if s != [] {
      DedupKeepsLast(s[1..], key);
      DedupKeys(s[1..], key);
      var rest := DedupLast(s[1..], key);
      forall i | 0 <= i < |rest|
        ensures key(rest[i]) in Keys(s[1..], key)
      {
        KeysMember(rest, key, key(rest[i]));
      }
    }
  }

  /**
   * Deduplicating `x + y`: the rows of `x` that survive on their own and whose key
   * `y` does not hold, then the survivors of `y`. On a shared key the row of `y` wins.
   */
  lemma {:induction false} DedupAppend<T, K>(x: seq<T>, y: seq<T>, key: T -> K)
    ensures DedupLast(x + y, key) == WithoutKeys(DedupLast(x, key), Keys(y, key), key) + DedupLast(y, key)
  {
    if x == [] {
      assert x + y == y;
    } else {
      assert (x + y)[0] == x[0] && (x + y)[1..] == x[1..] + y;
      DedupAppend(x[1..], y, key);
      KeysAppend(x[1..], y, key);
    }
  }

  lemma {:induction false} WithoutKeysAppend<T, K>(a: seq<T>, b: seq<T>, ks: set<K>, key: T -> K)
    ensures WithoutKeys(a + b, ks, key) == WithoutKeys(a, ks, key) + WithoutKeys(b, ks, key)
  {
    if a == [] {
      assert a + b == b;
    } else {
      assert (a + b)[0] == a[0] && (a + b)[1..] == a[1..] + b;
      WithoutKeysAppend(a[1..], b, ks, key);
    }
  }

  lemma {:induction false} WithoutKeysTwice<T, K>(s: seq<T>, ks: set<K>, key: T -> K)
    ensures WithoutKeys(WithoutKeys(s, ks, key), ks, key) == WithoutKeys(s, ks, key)
  {
    if s != [] {
      WithoutKeysTwice(s[1..], ks, key);
    }
  }

  lemma {:induction false} WithoutOwnKeys<T, K>(s: seq<T>, ks: set<K>, key: T -> K)
    requires Keys(s, key) <= ks
    ensures WithoutKeys(s, ks, key) == []
  {
    if s != [] {
      WithoutOwnKeys(s[1..], ks, key);
    }
  }

  /** Appending the same batch twice leaves the deduplicated result of appending it once. */
  lemma AppendTwice<T, K>(x: seq<T>, y: seq<T>, key: T -> K)
    ensures DedupLast(DedupLast(x + y, key) + y, key) == DedupLast(x + y, key)
  {
    var once := DedupLast(x + y, key);
    var ky := Keys(y, key);
    DedupAppend(x, y, key);
    DedupAppend(once, y, key);
    DedupIdempotent(x + y, key);
    WithoutKeysAppend(WithoutKeys(DedupLast(x, key), ky, key), DedupLast(y, key), ky, key);
    WithoutKeysTwice(DedupLast(x, key), ky, key);
    DedupKeys(y, key);
    WithoutOwnKeys(DedupLast(y, key), ky, key);
    assert WithoutKeys(DedupLast(x, key), ky, key) + [] == WithoutKeys(DedupLast(x, key), ky, key);
  }

  /** A row passes the key filter iff it is in the input and its key is not excluded. */
  lemma {:induction false} WithoutKeysMember<T, K>(s: seq<T>, ks: set<K>, key: T -> K, x: T)
    ensures x in WithoutKeys(s, ks, key) <==> x in s && key(x) !in ks
  {
    if s != [] {
      WithoutKeysMember(s[1..], ks, key, x);
      assert s == [s[0]] + s[1..];
    }
  }

  /** `LastWithKey` is at a position after which no row has its key. */
  lemma {:induction false} LastWithKeyIsLast<T, K>(s: seq<T>, k: K, key: T -> K)
    requires k in Keys(s, key)
    ensures exists i :: 0 <= i < |s| && s[i] == LastWithKey(s, k, key) &&
                        forall j :: i < j < |s| ==> key(s[j]) != k
  {
    if k in Keys(s[1..], key) {
      LastWithKeyIsLast(s[1..], k, key);
      var i :| 0 <= i < |s[1..]| && s[1..][i] == LastWithKey(s[1..], k, key) &&
               forall j :: i < j < |s[1..]| ==> key(s[1..][j]) != k;
      assert s[i + 1] == LastWithKey(s, k, key);
      forall j | i + 1 < j < |s| ensures key(s[j]) != k {
        assert s[j] == s[1..][j - 1];
      }
    } else {
      forall j | 0 < j < |s| ensures key(s[j]) != k {
        assert s[j] == s[1..][j - 1];
      }
    }
  }

  /** With unique keys no row occurs twice. */
  lemma {:induction false} UniqueKeysCount<T, K>(s: seq<T>, key: T -> K, x: T)
    requires UniqueKeys(s, key)
    ensures multiset(s)[x] <= 1
  {
    if s != [] {
      assert UniqueKeys(s[1..], key) by {
        forall i, j | 0 <= i < j < |s[1..]| ensures key(s[1..][i]) != key(s[1..][j]) {
          assert s[1..][i] == s[i + 1] && s[1..][j] == s[j + 1];
        }
      }
      UniqueKeysCount(s[1..], key, x);
      assert s == [s[0]] + s[1..];
      if s[0] == x {
        forall k | 0 <= k < |s[1..]| ensures s[1..][k] != x {
          assert s[1..][k] == s[k + 1];
        }
      }
    }
  }

  /** Unique keys survive any reordering. */
  lemma UniqueKeysPermutation<T, K>(a: seq<T>, b: seq<T>, key: T -> K)
    requires multiset(a) == multiset(b)
    requires UniqueKeys(b, key)
    ensures UniqueKeys(a, key)
  {
    forall i, j | 0 <= i < j < |a| ensures key(a[i]) != key(a[j]) {
      assert a[i] != a[j] by {
        assert a == a[..i] + [a[i]] + a[i + 1..j] + [a[j]] + a[j + 1..];
        UniqueKeysCount(b, key, a[i]);
      }
      assert a[i] in multiset(b) && a[j] in multiset(b);
      var p :| 0 <= p < |b| && b[p] == a[i];
      var q :| 0 <= q < |b| && b[q] == a[j];
      assert p != q;
    }
  }
}
