/** A PHP array used as an ordered dictionary: a list of key/value entries
    in first-insertion order. Assigning to an existing key replaces its value
    where it stands; assigning to a new key appends an entry. */
module PhpArray {

  datatype Option<T> = None | Some(value: T)

  /** No entry of `a` has the key `k`. */
  predicate Absent<K(==), V>(a: seq<(K, V)>, k: K) {
    forall i :: 0 <= i < |a| ==> a[i].0 != k
  }

  /** Every key occurs in one entry only, as in any PHP array. */
  predicate DistinctKeys<K(==), V>(a: seq<(K, V)>) {
    forall i, j :: 0 <= i < j < |a| ==> a[i].0 != a[j].0
  }

  /** A key is absent from an array grown by one entry exactly when it is
      absent from the array and is not the new entry's key. */
  lemma AbsentAppend<K, V>(a: seq<(K, V)>, k: K, v: V, key: K)
    ensures Absent(a + [(k, v)], key) <==> Absent(a, key) && k != key
  {
    assert forall i :: 0 <= i < |a| ==> (a + [(k, v)])[i] == a[i];
    assert (a + [(k, v)])[|a|] == (k, v);
  }

  /** `$a[$k]` read through `isset`: the value stored under `k`, if any. */
  function Get<K(==), V>(a: seq<(K, V)>, k: K): Option<V> {
    if a == [] then None
    else if a[0].0 == k then Some(a[0].1)
    else Get(a[1..], k)
  }

  /** `$a[$k] = $v`. */
  function Put<K(==), V>(a: seq<(K, V)>, k: K, v: V): seq<(K, V)> {
    if a == [] then [(k, v)]
    else if a[0].0 == k then [(k, v)] + a[1..]
    else [a[0]] + Put(a[1..], k, v)
  }

  /** A key is unset exactly when no entry has it. */
  lemma {:induction false} GetAbsent<K, V>(a: seq<(K, V)>, k: K)
    ensures Get(a, k).None? <==> Absent(a, k)
  {
    if a != [] && a[0].0 != k {
      GetAbsent(a[1..], k);
      assert forall i :: 0 < i < |a| ==> a[i] == a[1..][i - 1];
    }
  }

  /** After `$a[$k] = $v`, `$a[$k]` is `$v`. */
  lemma {:induction false} PutGet<K, V>(a: seq<(K, V)>, k: K, v: V)
    ensures Get(Put(a, k, v), k) == Some(v)
  {
    if a != [] && a[0].0 != k {
      PutGet(a[1..], k, v);
      assert Put(a, k, v)[1..] == Put(a[1..], k, v);
    }
  }

  /** The value stored under `k` is the one in the first entry with that key. */
  lemma {:induction false} GetAt<K, V>(a: seq<(K, V)>, i: nat)
    requires i < |a| && forall j :: 0 <= j < i ==> a[j].0 != a[i].0
    ensures Get(a, a[i].0) == Some(a[i].1)
  {
    if i > 0 {
      GetAt(a[1..], i - 1);
    }
  }

  /** Assigning to a key the array holds replaces its entry where it stands. */
  lemma {:induction false} PutAt<K, V>(a: seq<(K, V)>, i: nat, v: V)
    requires i < |a| && forall j :: 0 <= j < i ==> a[j].0 != a[i].0
    ensures Put(a, a[i].0, v) == a[..i] + [(a[i].0, v)] + a[i + 1..]
  {
    if i > 0 {
      var k, t := a[i].0, a[1..];
      ShiftFirst(a, i);
      PutAt(t, i - 1, v);
      assert a[0].0 != k;
      ReplaceInTail(a, i, (k, v));
    }
  }

  /** Replacing entry `i - 1` of the tail is replacing entry `i` of the whole. */
  lemma ReplaceInTail<T>(a: seq<T>, i: nat, x: T)
    requires 0 < i < |a|
    ensures [a[0]] + (a[1..][..i - 1] + [x] + a[1..][i..]) == a[..i] + [x] + a[i + 1..]
  {
    assert a[1..][..i - 1] == a[1..i] && a[1..][i..] == a[i + 1..];
    assert a[..i] == [a[0]] + a[1..i];
  }

  /** The first-occurrence condition of `PutAt` carries over to the tail. */
  lemma ShiftFirst<K, V>(a: seq<(K, V)>, i: nat)
    requires 0 < i < |a| && forall j :: 0 <= j < i ==> a[j].0 != a[i].0
    ensures forall j :: 0 <= j < i - 1 ==> a[1..][j].0 != a[1..][i - 1].0
  {
    forall j | 0 <= j < i - 1 ensures a[1..][j].0 != a[1..][i - 1].0 {
      assert a[1..][j] == a[j + 1];
    }
  }

  /** Assigning to a key the array does not hold appends one entry at the end. */
  lemma {:induction false} PutFresh<K, V>(a: seq<(K, V)>, k: K, v: V)
    requires Absent(a, k)
    ensures Put(a, k, v) == a + [(k, v)]
  {
    if a != [] {
      assert Absent(a[1..], k) by {
        forall i | 0 <= i < |a| - 1 ensures a[1..][i].0 != k {
          assert a[1..][i] == a[i + 1];
        }
      }
      PutFresh(a[1..], k, v);
    }
  }

  /** Assigning to a key the array holds adds no entry and moves no key. */
  lemma {:induction false} PutPresent<K, V>(a: seq<(K, V)>, k: K, v: V)
    requires !Absent(a, k)
    ensures |Put(a, k, v)| == |a|
    ensures forall i :: 0 <= i < |a| ==> Put(a, k, v)[i].0 == a[i].0
  {
    if a[0].0 != k {
      assert !Absent(a[1..], k) by {
        var i :| 0 <= i < |a| && a[i].0 == k;
        assert a[1..][i - 1] == a[i];
      }
      PutPresent(a[1..], k, v);
      assert Put(a, k, v) == [a[0]] + Put(a[1..], k, v);
    }
  }

  /** Assigning to one key leaves what every other key holds unchanged. */
  lemma {:induction false} PutOther<K, V>(a: seq<(K, V)>, k: K, v: V, k': K)
    requires k' != k
    ensures Get(Put(a, k, v), k') == Get(a, k')
  {
    if a != [] && a[0].0 != k {
      var r := Put(a, k, v);
      assert r[1..] == Put(a[1..], k, v);
      PutOther(a[1..], k, v, k');
    } else if a != [] {
      assert Put(a, k, v)[1..] == a[1..];
    }
  }

  /** Assigning keeps every key once: the keys stay distinct. */
  lemma PutDistinct<K, V>(a: seq<(K, V)>, k: K, v: V)
    requires DistinctKeys(a)
    ensures DistinctKeys(Put(a, k, v))
  {
    if Absent(a, k) {
      PutFresh(a, k, v);
      var r := a + [(k, v)];
      forall i, j | 0 <= i < j < |r| ensures r[i].0 != r[j].0 {
        if j == |a| {
          assert r[i] == a[i];
        }
      }
    } else {
      var i :| 0 <= i < |a| && a[i].0 == k;
      PutAt(a, i, v);
    }
  }
}
