/** Ordered string-keyed maps as association lists, the model of Java's
    `Map`/`LinkedHashMap`: iteration order is list order, and "first match" and
    "last write wins" are statements about that order. */
module Assoc {
  import opened Wrappers

  type Entries<V> = seq<(string, V)>

  /** Every key occurs once, as in any Java `Map`. */
  predicate Unique<V>(m: Entries<V>) {
    forall i, j :: 0 <= i < j < |m| ==> m[i].0 != m[j].0
  }

  /** The keys in iteration order. */
  function Keys<V>(m: Entries<V>): (ks: seq<string>)
    ensures |ks| == |m|
    ensures forall i :: 0 <= i < |m| ==> ks[i] == m[i].0
  {
    if |m| == 0 then [] else [m[0].0] + Keys(m[1..])
  }

  function KeySet<V>(m: Entries<V>): set<string> {
    set i | 0 <= i < |m| :: m[i].0
  }

  /** `map.get(key)`: the value of the first entry with that key. */
  function Lookup<V>(m: Entries<V>, key: string): (r: Option<V>)
    ensures r.None? <==> key !in KeySet(m)
    ensures r.Some? ==> exists i :: 0 <= i < |m| && m[i] == (key, r.value)
  {
    if |m| == 0 then None
    else if m[0].0 == key then Some(m[0].1)
    else
      var r := Lookup(m[1..], key);
      KeySetCons(m);
      LookupTail(m, key, r);
      r
  }

  lemma LookupTail<V>(m: Entries<V>, key: string, r: Option<V>)
    requires |m| > 0
    requires r.Some? ==> exists i :: 0 <= i < |m[1..]| && m[1..][i] == (key, r.value)
    ensures r.Some? ==> exists i :: 0 <= i < |m| && m[i] == (key, r.value)
  {
    if r.Some? {
      var i :| 0 <= i < |m[1..]| && m[1..][i] == (key, r.value);
      assert m[i + 1] == (key, r.value);
    }
  }

  /** In a map with unique keys, the entry at position `i` is what a lookup of its key returns. */
  lemma LookupAt<V>(m: Entries<V>, i: nat)
    requires Unique(m) && i < |m|
    ensures Lookup(m, m[i].0) == Some(m[i].1)
  {
    if i > 0 && m[0].0 != m[i].0 {
      LookupAt(m[1..], i - 1);
    }
  }

  /** `map.put(key, value)`: an existing key keeps its position and takes the new
      value; a new key is appended at the end. */
  function Put<V>(m: Entries<V>, key: string, value: V): (r: Entries<V>)
    ensures Lookup(r, key) == Some(value)
    ensures forall k :: k != key ==> Lookup(r, k) == Lookup(m, k)
    ensures KeySet(r) == KeySet(m) + {key}
    ensures Unique(m) ==> Unique(r)
  {
    if |m| == 0 then [(key, value)]
    else if m[0].0 == key then
      var r := [(key, value)] + m[1..];
      KeySetCons(m);
      KeySetCons(r);
      assert r[1..] == m[1..];
      UniqueHead(m, r);
      r
    else
      var t := Put(m[1..], key, value);
      var r := [m[0]] + t;
      KeySetCons(m);
      KeySetCons(r);
      assert r[1..] == t;
      PutTail(m, key, value, t, r);
      r
  }

  /** `put` never reorders: an existing key stays where it was, a new one goes last. */
  lemma {:induction false} PutKeys<V>(m: Entries<V>, key: string, value: V)
    ensures key in KeySet(m) ==> Keys(Put(m, key, value)) == Keys(m)
    ensures key !in KeySet(m) ==> Keys(Put(m, key, value)) == Keys(m) + [key]
  {
    if |m| > 0 && m[0].0 != key {
      PutKeys(m[1..], key, value);
      KeySetCons(m);
      var r := Put(m, key, value);
      assert r == [m[0]] + Put(m[1..], key, value);
      assert Keys(r) == [m[0].0] + Keys(Put(m[1..], key, value));
      assert Keys(m) == [m[0].0] + Keys(m[1..]);
    }
  }

  /** `put` keeps the existing keys, in order, as a prefix. */
  lemma PutKeysPrefix<V>(m: Entries<V>, key: string, value: V)
    ensures |m| <= |Put(m, key, value)|
    ensures Keys(Put(m, key, value))[..|m|] == Keys(m)
  {
    PutKeys(m, key, value);
  }

  /** A `put` of a key not yet present appends one entry and touches nothing else. */
  lemma {:induction false} PutNew<V>(m: Entries<V>, key: string, value: V)
    requires key !in KeySet(m)
    ensures Put(m, key, value) == m + [(key, value)]
  {
    if |m| > 0 {
      KeySetCons(m);
      assert m[0].0 != key;
      PutNew(m[1..], key, value);
      calc {
        Put(m, key, value);
        [m[0]] + Put(m[1..], key, value);
        [m[0]] + (m[1..] + [(key, value)]);
        { assert [m[0]] + m[1..] == m; }
        m + [(key, value)];
      }
    }
  }

  lemma UniqueHead<V>(m: Entries<V>, r: Entries<V>)
    requires |m| > 0 && |r| == |m| && r[0].0 == m[0].0 && r[1..] == m[1..]
    ensures Unique(m) ==> Unique(r)
  {
    if Unique(m) {
      forall i, j | 0 <= i < j < |r| ensures r[i].0 != r[j].0 {
        assert m[i].0 != m[j].0;
        if i > 0 { assert r[i] == m[i]; }
        assert r[j] == m[j];
      }
    }
  }

  lemma PutTail<V>(m: Entries<V>, key: string, value: V, t: Entries<V>, r: Entries<V>)
    requires |m| > 0 && m[0].0 != key && r == [m[0]] + t
    requires KeySet(t) == KeySet(m[1..]) + {key}
    requires Unique(m[1..]) ==> Unique(t)
    requires forall k :: k != key ==> Lookup(t, k) == Lookup(m[1..], k)
    ensures forall k :: k != key ==> Lookup(r, k) == Lookup(m, k)
    ensures Unique(m) ==> Unique(r)
  {
    if Unique(m) {
      assert Unique(m[1..]);
      KeySetCons(m);
      forall i | 0 <= i < |m[1..]| ensures m[1..][i].0 != m[0].0 {
        assert m[1..][i] == m[i + 1];
      }
      assert m[0].0 !in KeySet(m[1..]);
      forall i, j | 0 <= i < j < |r| ensures r[i].0 != r[j].0 {
        if i == 0 {
          assert r[j].0 in KeySet(t) by { assert t[j - 1] == r[j]; }
        } else {
          assert r[i] == t[i - 1] && r[j] == t[j - 1];
        }
      }
    }
  }

  lemma KeySetCons<V>(m: Entries<V>)
    requires |m| > 0
    ensures KeySet(m) == {m[0].0} + KeySet(m[1..])
  {
    forall k | k in KeySet(m) ensures k in {m[0].0} + KeySet(m[1..]) {
      var i :| 0 <= i < |m| && m[i].0 == k;
      if i > 0 { assert m[1..][i - 1].0 == k; }
    }
  }

  /** `map.putIfAbsent(key, value)`: writes only when the key is not there yet. */
  function PutIfAbsent<V>(m: Entries<V>, key: string, value: V): (r: Entries<V>)
    ensures Lookup(r, key) == Some(Lookup(m, key).GetOr(value))
    ensures forall k :: k != key ==> Lookup(r, k) == Lookup(m, k)
    ensures KeySet(r) == KeySet(m) + {key}
    ensures Unique(m) ==> Unique(r)
    ensures key in KeySet(m) ==> Keys(r) == Keys(m)
    ensures key !in KeySet(m) ==> Keys(r) == Keys(m) + [key]
  {
    PutKeys(m, key, value);
    if key in KeySet(m) then m else Put(m, key, value)
  }

  /** A three-entry map literal with distinct keys, such as the response maps
      built by three `put` calls on a fresh `LinkedHashMap`. */
  lemma Triple<V>(a: string, va: V, b: string, vb: V, c: string, vc: V)
    requires a != b && b != c && a != c
    ensures Keys([(a, va), (b, vb), (c, vc)]) == [a, b, c]
    ensures Unique([(a, va), (b, vb), (c, vc)])
    ensures Lookup([(a, va), (b, vb), (c, vc)], a) == Some(va)
    ensures Lookup([(a, va), (b, vb), (c, vc)], b) == Some(vb)
    ensures Lookup([(a, va), (b, vb), (c, vc)], c) == Some(vc)
  {
    var m := [(a, va), (b, vb), (c, vc)];
    assert m[1..] == [(b, vb), (c, vc)];
    assert m[1..][1..] == [(c, vc)];
    assert Keys(m) == [a] + Keys(m[1..]) == [a] + ([b] + Keys(m[1..][1..]));
    assert Lookup(m, b) == Lookup(m[1..], b);
    assert Lookup(m, c) == Lookup(m[1..], c) == Lookup(m[1..][1..], c);
  }
}
