/**
 * A Python `dict`: an insertion-ordered list of key/value pairs. Assigning to a key
 * that is present keeps its position; a new key goes to the end.
 */
module PyDict {
  import opened Wrappers

  type Dict<K, V> = seq<(K, V)>

  function Keys<K, V>(d: Dict<K, V>): (r: seq<K>)
    ensures |r| == |d|
    ensures forall i :: 0 <= i < |d| ==> r[i] == d[i].0
  {
    if d == [] then [] else [d[0].0] + Keys(d[1..])
  }

  function Values<K, V>(d: Dict<K, V>): (r: seq<V>)
    ensures |r| == |d|
    ensures forall i :: 0 <= i < |d| ==> r[i] == d[i].1
  {
    if d == [] then [] else [d[0].1] + Values(d[1..])
  }

  /** `d.pop(k)` on a key that is present: the entry goes, the others keep their order. */
  function Remove<K(==), V>(d: Dict<K, V>, k: K): (r: Dict<K, V>)
    ensures |r| <= |d|
  {
    if d == [] then [] else (if d[0].0 == k then [] else [d[0]]) + Remove(d[1..], k)
  }

  /** After `pop(k)` exactly the pairs with another key are left. */
  lemma {:induction false} RemoveKeeps<K, V>(d: Dict<K, V>, k: K, p: (K, V))
    ensures p in Remove(d, k) <==> p in d && p.0 != k
  {
    if d != [] {
      RemoveKeeps(d[1..], k, p);
      assert p in d <==> p == d[0] || p in d[1..];
    }
  }

  /** No key occurs twice: true of every dict built with `Set`. */
  predicate KeysDistinct<K(==), V>(d: Dict<K, V>) {
    forall i, j :: 0 <= i < j < |d| ==> d[i].0 != d[j].0
  }

  /** `d.get(k)` */
  function Get<K(==,!new), V>(d: Dict<K, V>, k: K): (r: Option<V>)
    ensures r.Some? <==> k in Keys(d)
  {
    if d == [] then None
    else if d[0].0 == k then Some(d[0].1)
    else Get(d[1..], k)
  }

  /** `d[k] = v` */
  function Set<K(==,!new), V>(d: Dict<K, V>, k: K, v: V): (r: Dict<K, V>)
    ensures k in Keys(d) ==> Keys(r) == Keys(d)
    ensures k !in Keys(d) ==> Keys(r) == Keys(d) + [k] && r == d + [(k, v)]
    ensures Get(r, k) == Some(v)
    ensures forall k' :: k' != k ==> Get(r, k') == Get(d, k')
  {
    if d == [] then [(k, v)]
    else if d[0].0 == k then
      var r := [(k, v)] + d[1..];
      SetHead(d, k, v, r);
      r
    else
      var t := Set(d[1..], k, v);
      SetTail(d, k, v, t);
      [d[0]] + t
  }

  /** The case of `Set` where the first pair holds the key. */
  lemma SetHead<K(!new), V>(d: Dict<K, V>, k: K, v: V, r: Dict<K, V>)
    requires d != [] && d[0].0 == k && r == [(k, v)] + d[1..]
    ensures k in Keys(d) && Keys(r) == Keys(d)
    ensures Get(r, k) == Some(v)
    ensures forall k' :: k' != k ==> Get(r, k') == Get(d, k')
  {
    assert r[1..] == d[1..];
  }

  /** The case of `Set` that passes over the first pair, given the result `t` for the rest. */
  lemma SetTail<K(!new), V>(d: Dict<K, V>, k: K, v: V, t: Dict<K, V>)
    requires d != [] && d[0].0 != k
    requires k in Keys(d[1..]) ==> Keys(t) == Keys(d[1..])
    requires k !in Keys(d[1..]) ==> Keys(t) == Keys(d[1..]) + [k] && t == d[1..] + [(k, v)]
    requires Get(t, k) == Some(v)
    requires forall k' :: k' != k ==> Get(t, k') == Get(d[1..], k')
    ensures var r := [d[0]] + t;
      && (k in Keys(d) ==> Keys(r) == Keys(d))
      && (k !in Keys(d) ==> Keys(r) == Keys(d) + [k] && r == d + [(k, v)])
      && Get(r, k) == Some(v)
      && (forall k' :: k' != k ==> Get(r, k') == Get(d, k'))
  {
    SetTailKeys(d, k, v, t);
    var r := [d[0]] + t;
    assert r[1..] == t;
    assert r[0] == d[0];
  }

  lemma SetTailKeys<K(!new), V>(d: Dict<K, V>, k: K, v: V, t: Dict<K, V>)
    requires d != [] && d[0].0 != k
    requires k in Keys(d[1..]) ==> Keys(t) == Keys(d[1..])
    requires k !in Keys(d[1..]) ==> Keys(t) == Keys(d[1..]) + [k] && t == d[1..] + [(k, v)]
    ensures var r := [d[0]] + t;
      && (k in Keys(d) ==> Keys(r) == Keys(d))
      && (k !in Keys(d) ==> Keys(r) == Keys(d) + [k] && r == d + [(k, v)])
  {
    var r := [d[0]] + t;
    assert r[1..] == t;
    assert Keys(d) == [d[0].0] + Keys(d[1..]) && Keys(r) == [d[0].0] + Keys(t);
    assert k in Keys(d) <==> k in Keys(d[1..]);
  }

  lemma SetKeysMember<K(!new), V>(d: Dict<K, V>, k: K, v: V, x: K)
    ensures x in Keys(Set(d, k, v)) <==> x == k || x in Keys(d)
  {
  }

  lemma SetKeepsDistinct<K(!new), V>(d: Dict<K, V>, k: K, v: V)
    requires KeysDistinct(d)
    ensures KeysDistinct(Set(d, k, v))
  {
    var r := Set(d, k, v);
    var kd, kr := Keys(d), Keys(r);
    forall i, j | 0 <= i < j < |r| ensures r[i].0 != r[j].0 {
      assert kr[i] == r[i].0 && kr[j] == r[j].0;
      if k in kd {
        assert kr[i] == kd[i] && kr[j] == kd[j];
        assert kd[i] == d[i].0 && kd[j] == d[j].0;
      } else if j < |d| {
        assert r[i] == d[i] && r[j] == d[j];
      } else {
        assert r[i] == d[i] && r[j] == (k, v);
        assert kd[i] == d[i].0;
      }
    }
  }

  /** `d.update(e)`: the pairs of `e` assigned one by one, in order. */
  function Update<K(==,!new), V>(d: Dict<K, V>, e: Dict<K, V>): Dict<K, V>
    decreases |e|
  {
    if e == [] then d else Update(Set(d, e[0].0, e[0].1), e[1..])
  }

  lemma {:induction false} UpdateGet<K(!new), V>(d: Dict<K, V>, e: Dict<K, V>, k: K)
    requires KeysDistinct(e)
    ensures Get(Update(d, e), k) == if k in Keys(e) then Get(e, k) else Get(d, k)
    decreases |e|
  {
    if e != [] {
      var d', t := Set(d, e[0].0, e[0].1), e[1..];
      assert KeysDistinct(t);
      UpdateGet(d', t, k);
      GetSet(d, e[0].0, e[0].1, k);
      assert Keys(e) == [e[0].0] + Keys(t);
      if k == e[0].0 {
        assert k !in Keys(t) by {
          forall i | 0 <= i < |t| ensures Keys(t)[i] != k {
            assert Keys(t)[i] == e[i + 1].0;
          }
        }
      }
    }
  }

  lemma {:induction false} UpdateKeepsDistinct<K(!new), V>(d: Dict<K, V>, e: Dict<K, V>)
    requires KeysDistinct(d)
    ensures KeysDistinct(Update(d, e))
    decreases |e|
  {
    if e != [] {
      SetKeepsDistinct(d, e[0].0, e[0].1);
      UpdateKeepsDistinct(Set(d, e[0].0, e[0].1), e[1..]);
    }
  }

  /** In a dict without repeated keys, each pair is what `get` finds for its key. */
  lemma {:induction false} GetAt<K(!new), V>(d: Dict<K, V>, i: int)
    requires KeysDistinct(d) && 0 <= i < |d|
    ensures Get(d, d[i].0) == Some(d[i].1)
  {
    if i > 0 {
      assert d[0].0 != d[i].0;
      assert d[1..][i - 1] == d[i];
      GetAt(d[1..], i - 1);
    }
  }

  /** Assigning to the key at position `i` of a dict without repeated keys replaces that pair only. */
  lemma {:induction false} SetAt<K(!new), V>(d: Dict<K, V>, i: int, v: V)
    requires KeysDistinct(d) && 0 <= i < |d|
    ensures var r := Set(d, d[i].0, v);
      |r| == |d| && r[i] == (d[i].0, v) && forall j :: 0 <= j < |d| && j != i ==> r[j] == d[j]
  {
    if i > 0 {
      var t := d[1..];
      assert d[0].0 != d[i].0 && t[i - 1] == d[i];
      assert KeysDistinct(t);
      SetAt(t, i - 1, v);
      var r := Set(d, d[i].0, v);
      assert r == [d[0]] + Set(t, d[i].0, v);
    }
  }

  lemma KeysPrefix<K, V>(d: Dict<K, V>, i: int)
    requires 0 <= i < |d|
    ensures Keys(d[..i + 1]) == Keys(d[..i]) + [d[i].0]
  {
  }

  /** `get` on a concatenation looks in the first part first. */
  lemma {:induction false} GetPrefix<K(!new), V>(d: Dict<K, V>, e: Dict<K, V>, k: K)
    ensures Get(d + e, k) == if k in Keys(d) then Get(d, k) else Get(e, k)
  {
    if d != [] {
      assert (d + e)[1..] == d[1..] + e;
      GetPrefix(d[1..], e, k);
    } else {
      assert d + e == e;
    }
  }

  lemma KeysConcat<K, V>(d: Dict<K, V>, e: Dict<K, V>)
    ensures Keys(d + e) == Keys(d) + Keys(e)
  {
    assert forall i :: 0 <= i < |d + e| ==> Keys(d + e)[i] == (Keys(d) + Keys(e))[i];
  }

  /** The keys after `update` are the old ones and the new ones. */
  lemma {:induction false} UpdateKeys<K(!new), V>(d: Dict<K, V>, e: Dict<K, V>, x: K)
    ensures x in Keys(Update(d, e)) <==> x in Keys(d) || x in Keys(e)
    decreases |e|
  {
    if e != [] {
      SetKeysMember(d, e[0].0, e[0].1, x);
      UpdateKeys(Set(d, e[0].0, e[0].1), e[1..], x);
      assert Keys(e) == [e[0].0] + Keys(e[1..]);
    }
  }

  /** `update` keeps the keys already present at their positions. */
  lemma {:induction false} UpdateKeepsPositions<K(!new), V>(d: Dict<K, V>, e: Dict<K, V>)
    ensures |Update(d, e)| >= |d| && Keys(Update(d, e))[..|d|] == Keys(d)
    decreases |e|
  {
    if e != [] {
      var d' := Set(d, e[0].0, e[0].1);
      UpdateKeepsPositions(d', e[1..]);
      SetKeepsPositions(d, e[0].0, e[0].1);
      assert Update(d, e) == Update(d', e[1..]);
      var ku := Keys(Update(d', e[1..]));
      PrefixOfPrefix(ku, |d|, |d'|);
    }
  }

  lemma PrefixOfPrefix<T>(s: seq<T>, a: nat, b: nat)
    requires a <= b <= |s|
    ensures s[..b][..a] == s[..a]
  {
  }

  /** `d[k] = v` keeps the keys already present at their positions. */
  lemma SetKeepsPositions<K(!new), V>(d: Dict<K, V>, k: K, v: V)
    ensures |Set(d, k, v)| >= |d| && Keys(Set(d, k, v))[..|d|] == Keys(d)
  {
    var r := Set(d, k, v);
    assert |Keys(r)| == |r| && |Keys(d)| == |d|;
  }

  /** Dropping the last pair keeps the keys distinct, and its key is not among the others. */
  lemma DistinctInit<K, V>(d: Dict<K, V>)
    requires KeysDistinct(d) && d != []
    ensures KeysDistinct(d[..|d| - 1]) && d[|d| - 1].0 !in Keys(d[..|d| - 1])
  {
    var p := d[..|d| - 1];
    forall i | 0 <= i < |p| ensures Keys(p)[i] != d[|d| - 1].0 {
      assert Keys(p)[i] == d[i].0;
    }
  }

  /** `get` after appending a pair. */
  lemma GetSnoc<K(!new), V>(d: Dict<K, V>, k: K, v: V, x: K)
    ensures Get(d + [(k, v)], x) == if x in Keys(d) then Get(d, x) else if x == k then Some(v) else None
  {
    GetPrefix(d, [(k, v)], x);
    assert [(k, v)][1..] == [];
  }

  /** Reading a dict after `d[k] = v`. */
  lemma GetSet<K(!new), V>(d: Dict<K, V>, k: K, v: V, x: K)
    ensures Get(Set(d, k, v), x) == if x == k then Some(v) else Get(d, x)
  {
  }

  lemma KeysCons<K, V>(p: (K, V), d: Dict<K, V>)
    ensures Keys([p] + d) == [p.0] + Keys(d)
  {
    assert ([p] + d)[1..] == d;
  }

  /** After `pop(k)` the key is gone and every other key reads as before. */
  lemma {:induction false} RemoveGet<K(!new), V>(d: Dict<K, V>, k: K, x: K)
    ensures Get(Remove(d, k), x) == if x == k then None else Get(d, x)
  {
    if d != [] {
      var t := Remove(d[1..], k);
      RemoveGet(d[1..], k, x);
      if d[0].0 == k {
        assert Remove(d, k) == t;
        assert x != k ==> Get(d, x) == Get(d[1..], x);
      } else {
        var r := [d[0]] + t;
        assert Remove(d, k) == r;
        assert r[0] == d[0] && r[1..] == t;
        if x == d[0].0 {
          assert Get(r, x) == Some(d[0].1) == Get(d, x);
        } else {
          assert Get(r, x) == Get(t, x);
          assert Get(d, x) == Get(d[1..], x);
        }
      }
    }
  }

  /** `pop` keeps the keys distinct. */
  lemma {:induction false} RemoveKeepsDistinct<K(!new), V>(d: Dict<K, V>, k: K)
    requires KeysDistinct(d)
    ensures KeysDistinct(Remove(d, k))
  {
    if d != [] {
      var t := Remove(d[1..], k);
      assert KeysDistinct(d[1..]) by {
        forall i, j | 0 <= i < j < |d[1..]| ensures d[1..][i].0 != d[1..][j].0 {
          assert d[1..][i] == d[i + 1] && d[1..][j] == d[j + 1];
        }
      }
      RemoveKeepsDistinct(d[1..], k);
      if d[0].0 != k {
        var r := [d[0]] + t;
        assert Remove(d, k) == r;
        forall i, j | 0 <= i < j < |r| ensures r[i].0 != r[j].0 {
          if i == 0 {
            RemoveKeeps(d[1..], k, t[j - 1]);
            var b :| 0 <= b < |d[1..]| && d[1..][b] == t[j - 1];
            assert d[b + 1] == r[j];
          } else {
            assert r[i] == t[i - 1] && r[j] == t[j - 1];
          }
        }
      }
    }
  }
}
