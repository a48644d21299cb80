/**
 * A JavaScript `Map`: keys in insertion order, `set` replacing the value of
 * an existing key where it stands and appending a new key at the end,
 * `delete` removing a key and keeping the order of the others. Keys are
 * strings (the relay keys its maps by socket and document ids).
 */
module OrderedMap {
  import opened Wrappers

  /** A key (a socket id) with its value. */
  datatype Entry<V> = Entry(key: string, value: V)

  function Keys<V>(m: seq<Entry<V>>): set<string> {
    if |m| == 0 then {} else {m[0].key} + Keys(m[1..])
  }

  /** No key occurs twice: the shape every `Map` has. */
  ghost predicate Distinct<V>(m: seq<Entry<V>>) {
    |m| == 0 || (m[0].key !in Keys(m[1..]) && Distinct(m[1..]))
  }

  /** `m.get(k)`, with `None` for a missing key. */
  function Get<V>(m: seq<Entry<V>>, k: string): (r: Option<V>)
    ensures r.Some? <==> k in Keys(m)
    ensures r.Some? ==> exists i :: 0 <= i < |m| && m[i] == Entry(k, r.value)
  {
    if |m| == 0 then None
    else if m[0].key == k then Some(m[0].value)
    else
      var r := Get(m[1..], k);
      assert Keys(m) == {m[0].key} + Keys(m[1..]);
      assert r.Some? ==> exists i :: 0 <= i < |m[1..]| && m[1..][i] == Entry(k, r.value);
      r
  }

  /** `Array.from(m.values())`. */
  function Values<V>(m: seq<Entry<V>>): (vs: seq<V>)
    ensures |vs| == |m| && forall i :: 0 <= i < |m| ==> vs[i] == m[i].value
  {
    seq(|m|, i requires 0 <= i < |m| => m[i].value)
  }

  /** `m.set(k, v)`: a new key goes last; an existing key keeps its place. */
  function Put<V>(m: seq<Entry<V>>, k: string, v: V): (r: seq<Entry<V>>)
    ensures Keys(r) == Keys(m) + {k}
    ensures Get(r, k) == Some(v)
    ensures forall k' :: k' != k ==> Get(r, k') == Get(m, k')
    ensures k !in Keys(m) ==> r == m + [Entry(k, v)]
  {
    if |m| == 0 then [Entry(k, v)]
    else if m[0].key == k then
      var r := [Entry(k, v)] + m[1..];
      assert r[1..] == m[1..];
      r
    else
      var rest := Put(m[1..], k, v);
      var r := [m[0]] + rest;
      assert r[1..] == rest;
      assert k !in Keys(m) ==> r == [m[0]] + (m[1..] + [Entry(k, v)]) == m + [Entry(k, v)];
      r
  }

  /** Setting an existing key changes its value where it stands and nothing else. */
  lemma {:induction false} PutInPlace<V>(m: seq<Entry<V>>, k: string, v: V)
    requires k in Keys(m)
    ensures |Put(m, k, v)| == |m|
    ensures forall i :: 0 <= i < |m| ==> Put(m, k, v)[i].key == m[i].key
    ensures forall i :: 0 <= i < |m| && m[i].key != k ==> Put(m, k, v)[i] == m[i]
  {
    if m[0].key != k {
      PutInPlace(m[1..], k, v);
      assert Put(m, k, v) == [m[0]] + Put(m[1..], k, v);
    }
  }

  lemma {:induction false} PutDistinct<V>(m: seq<Entry<V>>, k: string, v: V)
    requires Distinct(m)
    ensures Distinct(Put(m, k, v))
  {
    if |m| > 0 && m[0].key != k {
      PutDistinct(m[1..], k, v);
      assert Put(m, k, v)[1..] == Put(m[1..], k, v);
    }
  }

  /** `m.delete(k)`: the other keys keep their values and their order. */
  function Remove<V>(m: seq<Entry<V>>, k: string): (r: seq<Entry<V>>)
    ensures Keys(r) == Keys(m) - {k}
    ensures Get(r, k) == None
    ensures forall k' :: k' != k ==> Get(r, k') == Get(m, k')
    ensures k !in Keys(m) ==> r == m
    ensures |r| <= |m|
  {
    if |m| == 0 then []
    else
      var rest := Remove(m[1..], k);
      if m[0].key == k then rest
      else
        var r := [m[0]] + rest;
        assert r[1..] == rest;
        r
  }

  lemma {:induction false} RemoveDistinct<V>(m: seq<Entry<V>>, k: string)
    requires Distinct(m)
    ensures Distinct(Remove(m, k))
  {
    if |m| > 0 {
      RemoveDistinct(m[1..], k);
      if m[0].key != k {
        assert Remove(m, k)[1..] == Remove(m[1..], k);
      }
    }
  }

  /** Removing a key that was just added to a map without it restores the map. */
  lemma {:induction false} RemovePut<V>(m: seq<Entry<V>>, k: string, v: V)
    requires k !in Keys(m)
    ensures Remove(Put(m, k, v), k) == m
  {
    if |m| > 0 {
      assert Keys(m) == {m[0].key} + Keys(m[1..]);
      RemovePut(m[1..], k, v);
      assert Put(m, k, v) == [m[0]] + Put(m[1..], k, v);
    }
  }
}
