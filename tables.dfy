/** A Python `dict` as the handlers use it: a map that also remembers the
    order in which its keys were first inserted, since `dict.values()` (and
    hence every list endpoint and every uniqueness scan) walks that order. */
module Tables {
  import Seqs

  datatype Table<K(==, !new), V> = Table(keys: seq<K>, rows: map<K, V>) {

    /** The keys are listed once each, and they are exactly the map's keys. */
    ghost predicate Valid() {
      && Distinct(keys)
      && (forall k :: k in rows <==> k in keys)
    }

    /** `list(d.values())`: the stored values in insertion order. */
    function Values(): (vs: seq<V>)
      requires Valid()
      ensures |vs| == |keys|
      ensures forall i :: 0 <= i < |keys| ==> vs[i] == rows[keys[i]]
    {
      seq(|keys|, i requires 0 <= i < |keys| && Valid() => rows[keys[i]])
    }

    /** `d[k] = v`: an existing key keeps its place, a new key goes last. */
    function Put(k: K, v: V): (t: Table<K, V>)
      requires Valid()
      ensures t.Valid()
      ensures t.rows == rows[k := v]
    {
      if k in rows then Table(keys, rows[k := v]) else Table(keys + [k], rows[k := v])
    }

    /** `del d[k]`: the key is gone and the others keep their order. */
    function Remove(k: K): (t: Table<K, V>)
      requires Valid()
      ensures t.Valid()
      ensures t.rows == rows - {k}
    {
      var rest := Seqs.Filter(keys, (x: K) => x != k);
      forall x ensures x in rest <==> x in keys && x != k {
        Seqs.FilterMembers(keys, (x: K) => x != k, x);
      }
      DistinctFilter(keys, (x: K) => x != k);
      Table(rest, rows - {k})
    }

    /** The position of a stored key. */
    function IndexOf(k: K): (i: nat)
      requires Valid() && k in rows
      ensures i < |keys| && keys[i] == k
    {
      FindIndex(keys, k)
    }
  }

  /** Every record is stored under its own identifier. */
  ghost predicate KeyedBy<K(!new), V>(t: Table<K, V>, key: V -> K) {
    forall k :: k in t.rows ==> key(t.rows[k]) == k
  }

  function Empty<K(==, !new), V>(): (t: Table<K, V>)
    ensures t.Valid() && t.rows == map[] && t.Values() == []
  {
    Table([], map[])
  }

  function FindIndex<K(==)>(s: seq<K>, k: K): (i: nat)
    requires k in s
    ensures i < |s| && s[i] == k
  {
    if s[0] == k then 0 else 1 + FindIndex(s[1..], k)
  }

  ghost predicate Distinct<K>(s: seq<K>) {
    forall i, j :: 0 <= i < j < |s| ==> s[i] != s[j]
  }

  lemma {:induction false} DistinctFilter<K>(s: seq<K>, p: K -> bool)
    requires Distinct(s)
    ensures Distinct(Seqs.Filter(s, p))
  {
    if s != [] {
      DistinctFilter(s[1..], p);
      Seqs.FilterMembers(s[1..], p, s[0]);
      assert s[0] !in s[1..] by {
        forall i | 0 <= i < |s| - 1 ensures s[1..][i] != s[0] {
          assert s[1..][i] == s[i + 1];
        }
      }
    }
  }

  /** Assigning a new key appends its value to `d.values()`; assigning an
      existing key overwrites its value in place and moves nothing. */
  lemma PutValues<K(!new), V>(t: Table<K, V>, k: K, v: V)
    requires t.Valid()
    ensures k !in t.rows ==> t.Put(k, v).Values() == t.Values() + [v]
    ensures k in t.rows ==> t.Put(k, v).Values() == t.Values()[t.IndexOf(k) := v]
    ensures k in t.rows ==> t.Put(k, v).keys == t.keys
  {
    var u := t.Put(k, v);
    if k in t.rows {
      var i := t.IndexOf(k);
      forall j | 0 <= j < |t.keys| ensures u.Values()[j] == t.Values()[i := v][j] {
        assert j != i ==> t.keys[j] != k;
      }
    } else {
      assert u.Values() == t.Values() + [v];
    }
  }

  /** Assigning three keys in turn to an empty dict, each record under its
      own key, lists the three records in that order. */
  lemma PutThree<K(!new), V>(key: V -> K, x: V, y: V, z: V)
    requires key(x) != key(y) && key(x) != key(z) && key(y) != key(z)
    ensures var t := Empty<K, V>().Put(key(x), x).Put(key(y), y).Put(key(z), z);
            t.Valid() && KeyedBy(t, key) && t.keys == [key(x), key(y), key(z)] && t.Values() == [x, y, z]
  {
    var t := Empty<K, V>().Put(key(x), x).Put(key(y), y).Put(key(z), z);
    assert t.keys == [key(x), key(y), key(z)];
  }

  /** A filter that keeps everything around `k` but not `k` itself cuts
      exactly `k` out. */
  lemma FilterCutsOne<K>(pre: seq<K>, k: K, post: seq<K>, p: K -> bool)
    requires forall j :: 0 <= j < |pre| ==> p(pre[j])
    requires forall j :: 0 <= j < |post| ==> p(post[j])
    requires !p(k)
    ensures Seqs.Filter(pre + [k] + post, p) == pre + post
  {
    var front := pre + [k];
    assert Seqs.Filter([k], p) == [] by {
      assert [k][1..] == [];
    }
    assert Seqs.Filter(front, p) == pre by {
      Seqs.FilterAppend(pre, [k], p);
      Seqs.FilterKeepsAll(pre, p);
    }
    assert Seqs.Filter(front + post, p) == pre + post by {
      Seqs.FilterAppend(front, post, p);
      Seqs.FilterKeepsAll(post, p);
    }
  }

  /** Striking one entry out of a list without repeats leaves the entries
      before it and after it, in order. */
  lemma FilterOutAt<K>(s: seq<K>, i: nat)
    requires Distinct(s) && i < |s|
    ensures Seqs.Filter(s, (x: K) => x != s[i]) == s[..i] + s[i + 1..]
  {
    var pre, post := s[..i], s[i + 1..];
    forall j | 0 <= j < |pre| ensures pre[j] != s[i] {
      assert pre[j] == s[j];
    }
    forall j | 0 <= j < |post| ensures post[j] != s[i] {
      assert post[j] == s[i + 1 + j];
    }
    assert s == pre + [s[i]] + post;
    FilterCutsOne(pre, s[i], post, (x: K) => x != s[i]);
  }

  /** Deleting the key at position `i` removes exactly that entry of
      `d.values()`; the rest keep their relative order. */
  lemma RemoveValues<K(!new), V>(t: Table<K, V>, i: nat)
    requires t.Valid() && i < |t.keys|
    ensures t.Remove(t.keys[i]).keys == t.keys[..i] + t.keys[i + 1..]
    ensures t.Remove(t.keys[i]).Values() == t.Values()[..i] + t.Values()[i + 1..]
  {
    FilterOutAt(t.keys, i);
    var u := t.Remove(t.keys[i]);
    forall j | 0 <= j < |u.keys|
      ensures u.Values()[j] == (t.Values()[..i] + t.Values()[i + 1..])[j]
    {
      if j < i {
        assert u.keys[j] == t.keys[j];
      } else {
        assert u.keys[j] == t.keys[j + 1];
      }
    }
  }

  /** `del d[k]` leaves `k` absent, every other entry as it was, and every
      record under its own key. */
  lemma RemoveFrame<K(!new), V>(t: Table<K, V>, k: K, key: V -> K)
    requires t.Valid()
    ensures k !in t.Remove(k).rows
    ensures forall j :: j in t.rows && j != k ==> j in t.Remove(k).rows && t.Remove(k).rows[j] == t.rows[j]
    ensures KeyedBy(t, key) ==> KeyedBy(t.Remove(k), key)
  {
  }

  /** A value is in `d.values()` exactly when some key maps to it. */
  lemma ValuesMembers<K(!new), V>(t: Table<K, V>, v: V)
    requires t.Valid()
    ensures v in t.Values() <==> exists k :: k in t.rows && t.rows[k] == v
  {
    if exists k :: k in t.rows && t.rows[k] == v {
      var k :| k in t.rows && t.rows[k] == v;
      assert t.Values()[t.IndexOf(k)] == v;
    }
  }
}
