/** JavaScript plain objects keyed by strings, as the source uses them for
    `cards`, `collectedCards`, `tichu` and the per-room maps: an
    association list that keeps the insertion order of its keys, which
    `Object.keys`, `Object.entries` and spreading all follow. */
module Dicts {
  import opened Wrappers
  import opened Seqs

  datatype Entry<V> = Entry(key: string, val: V)

  type Dict<V> = seq<Entry<V>>

  function Keys<V>(d: Dict<V>): (ks: seq<string>)
    ensures |ks| == |d|
    ensures forall i :: 0 <= i < |d| ==> ks[i] == d[i].key
  {
    if d == [] then [] else [d[0].key] + Keys(d[1..])
  }

  function Vals<V>(d: Dict<V>): (vs: seq<V>)
    ensures |vs| == |d|
    ensures forall i :: 0 <= i < |d| ==> vs[i] == d[i].val
  {
    if d == [] then [] else [d[0].val] + Vals(d[1..])
  }

  /** Property access `d[k]`: the value of the first entry with key `k`. */
  function Get<V>(d: Dict<V>, k: string): (r: Option<V>)
    ensures r.None? <==> k !in Keys(d)
    ensures r.Some? ==> exists i :: 0 <= i < |d| && d[i] == Entry(k, r.value)
  {
    var i := IndexOf(Keys(d), k);
    if i < 0 then None else Some(d[i].val)
  }

  /** Assignment `d[k] = v` (and `{ ...d, [k]: v }`): an existing key keeps
      its place, a new key goes last. */
  function Put<V>(d: Dict<V>, k: string, v: V): (r: Dict<V>)
    ensures k in Keys(d) ==> Keys(r) == Keys(d)
    ensures k !in Keys(d) ==> Keys(r) == Keys(d) + [k]
    ensures Get(r, k) == Some(v)
    ensures forall k' :: k' != k ==> Get(r, k') == Get(d, k')
  {
    var i := IndexOf(Keys(d), k);
    if i >= 0 then
      PutExisting(d, i, v);
      d[i := Entry(k, v)]
    else
      PutNew(d, k, v);
      d + [Entry(k, v)]
  }

  lemma IndexOfFirst(s: seq<string>, x: string, i: nat)
    requires i < |s| && s[i] == x && x !in s[..i]
    ensures IndexOf(s, x) == i
  {
  }

  lemma PutExisting<V>(d: Dict<V>, i: nat, v: V)
    requires i < |d| && IndexOf(Keys(d), d[i].key) == i
    ensures Keys(d[i := Entry(d[i].key, v)]) == Keys(d)
    ensures Get(d[i := Entry(d[i].key, v)], d[i].key) == Some(v)
    ensures forall k' :: k' != d[i].key ==> Get(d[i := Entry(d[i].key, v)], k') == Get(d, k')
  {
    var r := d[i := Entry(d[i].key, v)];
    assert Keys(r) == Keys(d);
  }

  lemma PutNew<V>(d: Dict<V>, k: string, v: V)
    requires k !in Keys(d)
    ensures Keys(d + [Entry(k, v)]) == Keys(d) + [k]
    ensures Get(d + [Entry(k, v)], k) == Some(v)
    ensures forall k' :: k' != k ==> Get(d + [Entry(k, v)], k') == Get(d, k')
  {
    var r := d + [Entry(k, v)];
    assert Keys(r) == Keys(d) + [k];
    assert Keys(r)[..|d|] == Keys(d);
    IndexOfFirst(Keys(r), k, |d|);
    forall k' | k' != k ensures Get(r, k') == Get(d, k') {
      PutNewOther(d, k, v, k');
    }
  }

  lemma PutNewOther<V>(d: Dict<V>, k: string, v: V, k': string)
    requires k' != k
    ensures Get(d + [Entry(k, v)], k') == Get(d, k')
  {
    var r := d + [Entry(k, v)];
    assert Keys(r) == Keys(d) + [k];
    var j := IndexOf(Keys(d), k');
    if j >= 0 {
      assert Keys(r)[..j] == Keys(d)[..j];
      IndexOfFirst(Keys(r), k', j);
    } else {
      assert k' !in Keys(r);
    }
  }

  /** Builds an object from its keys, every key with the value `f(k)`. */
  function FromKeys<V>(ks: seq<string>, f: string -> V): (r: Dict<V>)
    ensures Keys(r) == ks
    ensures forall i :: 0 <= i < |ks| ==> r[i].val == f(ks[i])
  {
    if ks == [] then [] else [Entry(ks[0], f(ks[0]))] + FromKeys(ks[1..], f)
  }

  /** Distinct keys: the invariant every object the model builds keeps. */
  predicate UniqueKeys<V>(d: Dict<V>) {
    Distinct(Keys(d))
  }

  /** Looking a key up in an object with distinct keys finds the entry at
      its position. */
  lemma GetAt<V>(d: Dict<V>, i: nat)
    requires UniqueKeys(d) && i < |d|
    ensures Get(d, d[i].key) == Some(d[i].val)
  {
    if i > 0 {
      assert Keys(d)[0] != Keys(d)[i];
      assert UniqueKeys(d[1..]) by {
        assert Keys(d[1..]) == Keys(d)[1..];
      }
      GetAt(d[1..], i - 1);
    }
  }

  /** Writing keeps the keys distinct. */
  lemma PutUnique<V>(d: Dict<V>, k: string, v: V)
    requires UniqueKeys(d)
    ensures UniqueKeys(Put(d, k, v))
  {
  }

  /** A second assignment to the same key overwrites the first in place:
      the object is the one a single assignment of the second value gives. */
  lemma PutTwice<V>(d: Dict<V>, k: string, a: V, b: V)
    ensures Put(Put(d, k, a), k, b) == Put(d, k, b)
  {
    var i := IndexOf(Keys(d), k);
    if i < 0 {
      PutTwiceNew(d, k, a, b);
    } else {
      PutTwiceExisting(d, i, a, b);
    }
  }

  lemma PutTwiceNew<V>(d: Dict<V>, k: string, a: V, b: V)
    requires k !in Keys(d)
    ensures Put(d, k, a) == d + [Entry(k, a)]
    ensures Put(d + [Entry(k, a)], k, b) == d + [Entry(k, b)]
  {
    var d1 := d + [Entry(k, a)];
    PutFresh(d, k, a);
    assert Keys(d1)[..|d|] == Keys(d);
    IndexOfFirst(Keys(d1), k, |d|);
    PutAt(d1, |d|, b);
    UpdateLast(d, Entry(k, a), Entry(k, b));
  }

  lemma PutTwiceExisting<V>(d: Dict<V>, i: nat, a: V, b: V)
    requires i < |d| && IndexOf(Keys(d), d[i].key) == i
    ensures Put(d, d[i].key, a) == d[i := Entry(d[i].key, a)]
    ensures Put(d[i := Entry(d[i].key, a)], d[i].key, b) == d[i := Entry(d[i].key, b)]
  {
    var k := d[i].key;
    var d1 := d[i := Entry(k, a)];
    PutAt(d, i, a);
    assert Keys(d1) == Keys(d);
    PutAt(d1, i, b);
    UpdateAgain(d, i, Entry(k, a), Entry(k, b));
  }

  /** Assigning a key held at position `i` replaces that entry. */
  lemma PutAt<V>(d: Dict<V>, i: nat, v: V)
    requires i < |d| && IndexOf(Keys(d), d[i].key) == i
    ensures Put(d, d[i].key, v) == d[i := Entry(d[i].key, v)]
  {
  }

  /** Property access on a key the object is known to hold. */
  function At<V>(d: Dict<V>, k: string): V
    requires k in Keys(d)
  {
    Get(d, k).value
  }

  /** ramda `map(always(w))` on an object: every key keeps its place and
      gets the value `w`. */
  function MapAlways<V, W>(d: Dict<V>, w: W): (r: Dict<W>)
    ensures Keys(r) == Keys(d)
    ensures forall i :: 0 <= i < |r| ==> r[i].val == w
  {
    Blank(Keys(d), w)
  }

  /** An object with the keys `ks`, in this order, all holding `w`. */
  function Blank<W>(ks: seq<string>, w: W): (r: Dict<W>)
    ensures Keys(r) == ks
    ensures forall i :: 0 <= i < |r| ==> r[i].val == w
  {
    seq(|ks|, i requires 0 <= i < |ks| => Entry(ks[i], w))
  }

  /** The object whose i-th key `ks[i]` holds `vs[i]`; ramda
      `addIndex(map)((_, i) => vs[i])` on an object with the keys `ks`. */
  function Zip<V>(ks: seq<string>, vs: seq<V>): (r: Dict<V>)
    requires |vs| >= |ks|
    ensures Keys(r) == ks
    ensures forall i :: 0 <= i < |r| ==> r[i].val == vs[i]
  {
    seq(|ks|, i requires 0 <= i < |ks| => Entry(ks[i], vs[i]))
  }

  /** Writing a key the object does not hold adds it at the end. */
  lemma PutFresh<V>(d: Dict<V>, k: string, v: V)
    requires k !in Keys(d)
    ensures Put(d, k, v) == d + [Entry(k, v)]
  {
  }

  /** In an object with distinct keys, the entry at position `i` is what a
      lookup of its key finds; restated for the key at position `i`. */
  lemma AtPosition<V>(d: Dict<V>, i: nat)
    requires UniqueKeys(d) && i < |d|
    ensures Keys(d)[i] in Keys(d) && At(d, Keys(d)[i]) == d[i].val
  {
    GetAt(d, i);
  }

  /** Writing a new key into a blank object extends it by that key. */
  lemma BlankSnoc<W>(ks: seq<string>, k: string, w: W)
    requires k !in ks
    ensures Put(Blank(ks, w), k, w) == Blank(ks + [k], w)
  {
    BlankAppend(ks, k, w);
    PutFresh(Blank(ks, w), k, w);
  }

  /** Writing a new key with the next value extends a zipped object. */
  lemma ZipSnoc<V>(ks: seq<string>, vs: seq<V>, k: string)
    requires k !in ks && |vs| > |ks|
    ensures Put(Zip(ks, vs), k, vs[|ks|]) == Zip(ks + [k], vs)
  {
    ZipAppend(ks, vs, k);
    PutFresh(Zip(ks, vs), k, vs[|ks|]);
  }

  lemma BlankAppend<W>(ks: seq<string>, k: string, w: W)
    ensures Blank(ks + [k], w) == Blank(ks, w) + [Entry(k, w)]
  {
  }

  lemma ZipAppend<V>(ks: seq<string>, vs: seq<V>, k: string)
    requires |vs| > |ks|
    ensures Zip(ks + [k], vs) == Zip(ks, vs) + [Entry(k, vs[|ks|])]
  {
  }

  /** Two writes of the same key of a per-room map leave the second. */
  lemma UpdateTwice<K, V>(m: map<K, V>, k: K, v: V, w: V)
    ensures m[k := v][k := w] == m[k := w]
  {
  }

  /** Writing back the value a key already has changes nothing. */
  lemma UpdateSame<K, V>(m: map<K, V>, k: K)
    requires k in m
    ensures m[k := m[k]] == m
  {
  }
}
