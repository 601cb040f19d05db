/** The array operations that the team builder applies to its lists, keyed by an
    identifier: `some` and `find` with an id test, `filter` that drops an id, and a
    `map` that swaps in a replacement for an id. Each is written once, generic in the
    element type and in how an element's key is read (`p.id` for a Pokemon, `t.id`
    for a saved team). */
module Lists {

  datatype Option<T> = None | Some(value: T)

  /** No two elements of `s` share a key. */
  ghost predicate DistinctKeys<T, K>(s: seq<T>, key: T -> K) {
    forall i, j :: 0 <= i < j < |s| ==> key(s[i]) != key(s[j])
  }

  /** `s.some(x => key(x) === k)` */
  function Any<T, K(==)>(s: seq<T>, key: T -> K, k: K): (b: bool)
    ensures b <==> exists i :: 0 <= i < |s| && key(s[i]) == k
  {
    if s == [] then false
    else if key(s[0]) == k then true
    else
      var b' := Any(s[1..], key, k);
      assert b' ==> exists i :: 0 <= i < |s| && key(s[i]) == k by {
        if b' {
          var i :| 0 <= i < |s[1..]| && key(s[1..][i]) == k;
          assert key(s[i + 1]) == k;
        }
      }
      b'
  }

  /** `s.find(x => key(x) === k)`: the first element with key `k`, if any. */
  function Find<T, K(==)>(s: seq<T>, key: T -> K, k: K): (r: Option<T>)
    ensures r.None? <==> !Any(s, key, k)
    ensures r.Some? ==> exists i :: 0 <= i < |s| && s[i] == r.value && key(s[i]) == k &&
                                    forall j :: 0 <= j < i ==> key(s[j]) != k
  {
    if s == [] then None
    else if key(s[0]) == k then Some(s[0])
    else
      var r := Find(s[1..], key, k);
      assert r.Some? ==> exists i :: 0 <= i < |s| && s[i] == r.value && key(s[i]) == k &&
                                     forall j :: 0 <= j < i ==> key(s[j]) != k by {
        if r.Some? {
          var i :| 0 <= i < |s[1..]| && s[1..][i] == r.value && key(s[1..][i]) == k &&
                   forall j :: 0 <= j < i ==> key(s[1..][j]) != k;
          assert forall j :: 0 <= j < i + 1 ==> key(s[j]) != k by {
            forall j | 0 <= j < i + 1 ensures key(s[j]) != k {
              if j > 0 { assert s[j] == s[1..][j - 1]; }
            }
          }
        }
      }
      r
  }

  /** `s.filter(x => key(x) !== k)`: every element with key `k` is dropped, every other
      element is kept as often as it occurs. */
  function RemoveAll<T(==,!new), K(==)>(s: seq<T>, key: T -> K, k: K): (r: seq<T>)
    ensures |r| <= |s|
    ensures forall x :: x in r <==> x in s && key(x) != k
  {
    if s == [] then []
    else (if key(s[0]) == k then [] else [s[0]]) + RemoveAll(s[1..], key, k)
  }

  /** Every element whose key is not `k` survives filtering as often as it occurs. */
  lemma {:induction false} RemoveAllCounts<T(!new), K>(s: seq<T>, key: T -> K, k: K)
    ensures forall x :: multiset(RemoveAll(s, key, k))[x] == if key(x) == k then 0 else multiset(s)[x]
  {
    if s != [] {
      assert s == [s[0]] + s[1..];
      RemoveAllCounts(s[1..], key, k);
    }
  }

  /** `s.map(x => key(x) === k ? y : x)` */
  function ReplaceAll<T, K(==)>(s: seq<T>, key: T -> K, k: K, y: T): (r: seq<T>)
    ensures |r| == |s|
    ensures forall i :: 0 <= i < |s| ==> r[i] == if key(s[i]) == k then y else s[i]
  {
    if s == [] then []
    else [if key(s[0]) == k then y else s[0]] + ReplaceAll(s[1..], key, k, y)
  }

  /** Filtering distributes over concatenation: the kept elements stay in their
      original order. */
  lemma {:induction false} RemoveAllAppend<T(!new), K>(a: seq<T>, b: seq<T>, key: T -> K, k: K)
    ensures RemoveAll(a + b, key, k) == RemoveAll(a, key, k) + RemoveAll(b, key, k)
  {
    if a == [] {
      assert a + b == b;
    } else {
      assert (a + b)[0] == a[0] && (a + b)[1..] == a[1..] + b;
      RemoveAllAppend(a[1..], b, key, k);
    }
  }

  /** Dropping a key that no element carries changes nothing. */
  lemma {:induction false} RemoveAllAbsent<T(!new), K>(s: seq<T>, key: T -> K, k: K)
    requires !Any(s, key, k)
    ensures RemoveAll(s, key, k) == s
  {
    if s != [] {
      assert key(s[0]) != k;
      assert !Any(s[1..], key, k);
      RemoveAllAbsent(s[1..], key, k);
    }
  }

  /** Filtering twice by the same key is filtering once. */
  lemma RemoveAllIdempotent<T(!new), K>(s: seq<T>, key: T -> K, k: K)
    ensures RemoveAll(RemoveAll(s, key, k), key, k) == RemoveAll(s, key, k)
  {
    var r := RemoveAll(s, key, k);
    assert !Any(r, key, k) by {
      forall i | 0 <= i < |r| ensures key(r[i]) != k { assert r[i] in r; }
    }
    RemoveAllAbsent(r, key, k);
  }

  /** Filtering keeps keys pairwise distinct. */
  lemma {:induction false} RemoveAllKeepsDistinct<T(!new), K>(s: seq<T>, key: T -> K, k: K)
    requires DistinctKeys(s, key)
    ensures DistinctKeys(RemoveAll(s, key, k), key)
  {
    if s != [] {
      var tail := RemoveAll(s[1..], key, k);
      assert DistinctKeys(s[1..], key) by {
        forall i, j | 0 <= i < j < |s[1..]| ensures key(s[1..][i]) != key(s[1..][j]) {
          assert s[1..][i] == s[i + 1] && s[1..][j] == s[j + 1];
        }
      }
      RemoveAllKeepsDistinct(s[1..], key, k);
      if key(s[0]) != k {
        forall j | 0 <= j < |tail| ensures key(s[0]) != key(tail[j]) {
          assert tail[j] in s[1..];
          var m :| 0 <= m < |s[1..]| && s[1..][m] == tail[j];
          assert s[m + 1] == tail[j];
        }
        var r := [s[0]] + tail;
        forall i, j | 0 <= i < j < |r| ensures key(r[i]) != key(r[j]) {
          if i == 0 { assert r[j] == tail[j - 1]; }
          else { assert r[i] == tail[i - 1] && r[j] == tail[j - 1]; }
        }
      }
    }
  }

  /** Appending an element whose key is new keeps keys pairwise distinct. */
  lemma AppendKeepsDistinct<T, K>(s: seq<T>, key: T -> K, x: T)
    requires DistinctKeys(s, key) && !Any(s, key, key(x))
    ensures DistinctKeys(s + [x], key)
  {
    var r := s + [x];
    forall i, j | 0 <= i < j < |r| ensures key(r[i]) != key(r[j]) {
      assert r[i] == s[i];
      if j < |s| { assert r[j] == s[j]; }
    }
  }

  /** After appending an element with a new key, looking that key up finds it. */
  lemma {:induction false} FindAfterAppend<T, K>(s: seq<T>, key: T -> K, x: T)
    requires !Any(s, key, key(x))
    ensures Find(s + [x], key, key(x)) == Some(x)
  {
    if s != [] {
      assert (s + [x])[1..] == s[1..] + [x];
      assert key(s[0]) != key(x);
      assert !Any(s[1..], key, key(x));
      FindAfterAppend(s[1..], key, x);
    } else {
      assert Any([x], key, key(x));
    }
  }

  /** Replacing a key that no element carries changes nothing. */
  lemma ReplaceAllAbsent<T, K>(s: seq<T>, key: T -> K, k: K, y: T)
    requires !Any(s, key, k)
    ensures ReplaceAll(s, key, k, y) == s
  {
    var r := ReplaceAll(s, key, k, y);
    forall i | 0 <= i < |s| ensures r[i] == s[i] {
      assert key(s[i]) != k;
    }
  }

  /** After a replacement whose new element keeps the key, looking the key up finds
      the new element. */
  lemma {:induction false} FindAfterReplace<T, K>(s: seq<T>, key: T -> K, k: K, y: T)
    requires Any(s, key, k) && key(y) == k
    ensures Find(ReplaceAll(s, key, k, y), key, k) == Some(y)
  {
    if key(s[0]) != k {
      assert Any(s[1..], key, k) by {
        var i :| 0 <= i < |s| && key(s[i]) == k;
        assert i > 0 && s[1..][i - 1] == s[i];
      }
      FindAfterReplace(s[1..], key, k, y);
    }
  }

  /** After a removal, the key is no longer found. */
  lemma FindAfterRemove<T(!new), K>(s: seq<T>, key: T -> K, k: K)
    ensures Find(RemoveAll(s, key, k), key, k) == None
  {
    var r := RemoveAll(s, key, k);
    forall i | 0 <= i < |r| ensures key(r[i]) != k { assert r[i] in r; }
  }
}
