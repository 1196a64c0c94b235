/**
  An insertion-ordered dictionary, the way a Python dict behaves: a sequence of
  key/value entries, in the order their keys were first inserted.
 */
module Dicts {

  type Dict<K, V> = seq<(K, V)>

  /** The keys, in iteration order. */
  function Keys<K, V>(d: Dict<K, V>): seq<K> {
    seq(|d|, i requires 0 <= i < |d| => d[i].0)
  }

  predicate StrictlyIncreasing(s: seq<int>) {
    forall i, j :: 0 <= i < j < |s| ==> s[i] < s[j]
  }

  /**
    Assigning a key: an existing key keeps its place and takes the new value,
    a new key is appended at the end.
   */
  function Put<K(==,!new), V(!new)>(d: Dict<K, V>, k: K, v: V): (r: Dict<K, V>)
    ensures k !in Keys(d) ==> r == d + [(k, v)]
    ensures k in Keys(d) ==> |r| == |d| && Keys(r) == Keys(d)
    ensures (k, v) in r
  {
    if d == [] then [(k, v)]
    else if d[0].0 == k then
      assert Keys(d)[0] == k;
      var r := [(k, v)] + d[1..];
      assert Keys(r) == Keys(d);
      r
    else
      var rest := Put(d[1..], k, v);
      assert k in Keys(d[1..]) <==> k in Keys(d) by {
        assert Keys(d) == [d[0].0] + Keys(d[1..]);
      }
      assert Keys([d[0]] + rest) == [d[0].0] + Keys(rest);
      assert Keys(d) == [d[0].0] + Keys(d[1..]);
      [d[0]] + rest
  }

  /** Assigning a key that is present overwrites the value of its first entry, in place, and nothing else. */
  lemma {:induction false} PutOverwrites<K(!new), V(!new)>(d: Dict<K, V>, k: K, v: V, i: int)
    requires 0 <= i < |d| && d[i].0 == k
    requires forall j :: 0 <= j < i ==> d[j].0 != k
    ensures Put(d, k, v) == d[i := (k, v)]
  {
    if i > 0 {
      assert d[0].0 != k;
      PutOverwrites(d[1..], k, v, i - 1);
      assert [d[0]] + d[1..][i - 1 := (k, v)] == d[i := (k, v)];
    }
  }

  /** The entries whose key is not in `gone`, in their original order. */
  function Without<K(==,!new), V(!new)>(d: Dict<K, V>, gone: set<K>): (r: Dict<K, V>)
    ensures forall e {:trigger e in r} :: e in r <==> e in d && e.0 !in gone
    ensures |r| <= |d|
  {
    if d == [] then []
    else (if d[0].0 in gone then [] else [d[0]]) + Without(d[1..], gone)
  }

  /** Deleting a key; deleting a key that is absent leaves the dictionary unchanged. */
  function Remove<K(==,!new), V(!new)>(d: Dict<K, V>, k: K): (r: Dict<K, V>)
    ensures k !in Keys(r)
    ensures forall e {:trigger e in r} :: e in r <==> e in d && e.0 != k
  {
    var r := Without(d, {k});
    assert forall i :: 0 <= i < |r| ==> r[i] in r;
    r
  }

  /** Deleting a key held by exactly one entry cuts out that entry; the others keep their order. */
  lemma RemoveAt<K(!new), V(!new)>(d: Dict<K, V>, k: K, i: int)
    requires 0 <= i < |d| && d[i].0 == k
    requires forall j :: 0 <= j < |d| && j != i ==> d[j].0 != k
    ensures Remove(d, k) == d[..i] + d[i + 1..]
  {
    WithoutAt(d, k, i);
  }

  lemma {:induction false} WithoutAt<K(!new), V(!new)>(d: Dict<K, V>, k: K, i: int)
    requires 0 <= i < |d| && d[i].0 == k
    requires forall j :: 0 <= j < |d| && j != i ==> d[j].0 != k
    ensures Without(d, {k}) == d[..i] + d[i + 1..]
  {
    var tail := d[1..];
    if i == 0 {
      WithoutOtherKey(tail, k);
    } else {
      WithoutAt(tail, k, i - 1);
      assert [d[0]] + (tail[..i - 1] + tail[i..]) == d[..i] + d[i + 1..];
    }
  }

  lemma {:induction false} WithoutOtherKey<K(!new), V(!new)>(d: Dict<K, V>, k: K)
    requires forall j :: 0 <= j < |d| ==> d[j].0 != k
    ensures Without(d, {k}) == d
  {
    if d != [] {
      WithoutOtherKey(d[1..], k);
    }
  }

  lemma {:induction false} KeysIn<K(!new), V(!new)>(d: Dict<K, V>, k: K)
    ensures k in Keys(d) <==> exists e :: e in d && e.0 == k
  {
    if k in Keys(d) {
      var i :| 0 <= i < |d| && Keys(d)[i] == k;
      assert d[i] in d;
    } else {
      forall e | e in d ensures e.0 != k {
        var i :| 0 <= i < |d| && d[i] == e;
        assert Keys(d)[i] == e.0;
      }
    }
  }

  /** Removing keys none of which is present changes nothing. */
  lemma {:induction false} WithoutAbsent<K(!new), V(!new)>(d: Dict<K, V>, gone: set<K>)
    requires forall k :: k in gone ==> k !in Keys(d)
    ensures Without(d, gone) == d
  {
    if d != [] {
      assert Keys(d)[0] == d[0].0;
      assert Keys(d[1..]) == Keys(d)[1..];
      WithoutAbsent(d[1..], gone);
    }
  }

  /** Removing in two rounds is removing the union once. */
  lemma {:induction false} WithoutWithout<K(!new), V(!new)>(d: Dict<K, V>, a: set<K>, b: set<K>)
    ensures Without(Without(d, a), b) == Without(d, a + b)
  {
    if d != [] {
      WithoutWithout(d[1..], a, b);
      var head := if d[0].0 in a then [] else [d[0]];
      assert Without(d, a) == head + Without(d[1..], a);
      WithoutConcat(head, Without(d[1..], a), b);
    }
  }

  lemma {:induction false} WithoutConcat<K(!new), V(!new)>(x: Dict<K, V>, y: Dict<K, V>, gone: set<K>)
    ensures Without(x + y, gone) == Without(x, gone) + Without(y, gone)
  {
    if x == [] {
      assert x + y == y;
    } else {
      assert (x + y)[0] == x[0];
      assert (x + y)[1..] == x[1..] + y;
      WithoutConcat(x[1..], y, gone);
    }
  }

  /** Removing every key there is leaves the empty dictionary. */
  lemma WithoutAll<K(!new), V(!new)>(d: Dict<K, V>, gone: set<K>)
    requires forall i :: 0 <= i < |d| ==> d[i].0 in gone
    ensures Without(d, gone) == []
  {
  }

  /** Keys(Without(d, gone)) lists the surviving keys in their original order. */
  lemma {:induction false} KeysWithoutSubset<K(!new), V(!new)>(d: Dict<K, V>, gone: set<K>, k: K)
    requires k in Keys(Without(d, gone))
    ensures k in Keys(d) && k !in gone
  {
    KeysIn(Without(d, gone), k);
    KeysIn(d, k);
  }

  lemma IncreasingCons(x: int, s: seq<int>)
    requires StrictlyIncreasing(s)
    requires forall j :: 0 <= j < |s| ==> x < s[j]
    ensures StrictlyIncreasing([x] + s)
  {
  }

  lemma HeadBelowSurvivors<V(!new)>(d: Dict<int, V>, gone: set<int>)
    requires d != [] && StrictlyIncreasing(Keys(d))
    ensures forall j :: 0 <= j < |Without(d[1..], gone)| ==> d[0].0 < Keys(Without(d[1..], gone))[j]
  {
    var tail, rest := d[1..], Without(d[1..], gone);
    forall j | 0 <= j < |rest| ensures d[0].0 < Keys(rest)[j] {
      KeysWithoutSubset(tail, gone, Keys(rest)[j]);
      var i :| 0 <= i < |tail| && Keys(tail)[i] == Keys(rest)[j];
      assert Keys(d)[0] < Keys(d)[i + 1];
    }
  }

  /** Deleting entries keeps strictly increasing keys strictly increasing. */
  lemma {:induction false} WithoutKeepsIncreasing<V(!new)>(d: Dict<int, V>, gone: set<int>)
    requires StrictlyIncreasing(Keys(d))
    ensures StrictlyIncreasing(Keys(Without(d, gone)))
  {
    if d != [] {
      var tail := d[1..];
      assert StrictlyIncreasing(Keys(tail)) by {
        assert Keys(tail) == Keys(d)[1..];
      }
      WithoutKeepsIncreasing(tail, gone);
      var rest := Without(tail, gone);
      if d[0].0 in gone {
        assert Without(d, gone) == rest;
      } else {
        assert Keys(Without(d, gone)) == [d[0].0] + Keys(rest) by {
          assert Without(d, gone) == [d[0]] + rest;
        }
        assert StrictlyIncreasing([d[0].0] + Keys(rest)) by {
          HeadBelowSurvivors(d, gone);
          IncreasingCons(d[0].0, Keys(rest));
        }
      }
    }
  }
}
