/** An ordered string-keyed dictionary: the model of a JavaScript object used
    as a map. Keys enumerate in insertion order, as `for ... in` does for
    non-index keys; writing an existing key keeps its position. */
module Dict {
  import opened Wrappers

  datatype RawDict<V> = RawDict(keys: seq<string>, vals: map<string, V>)

  ghost predicate Distinct(keys: seq<string>) {
    forall i, j | 0 <= i < j < |keys| :: keys[i] != keys[j]
  }

  ghost predicate WellFormed<V>(d: RawDict<V>) {
    && Distinct(d.keys)
    && (forall k :: k in d.vals <==> k in d.keys)
  }

  type Dict<V> = d: RawDict<V> | WellFormed(d) witness RawDict([], map[])

  function Empty<V>(): (d: Dict<V>)
    ensures |d.keys| == 0 && d.vals == map[]
  {
    RawDict([], map[])
  }

  function Singleton<V>(k: string, v: V): (d: Dict<V>)
    ensures d.keys == [k] && d.vals == map[k := v]
  {
    RawDict([k], map[k := v])
  }

  /** `obj[k] = v`. */
  function Put<V>(d: Dict<V>, k: string, v: V): (r: Dict<V>)
    ensures r.vals == d.vals[k := v]
    ensures k in d.vals ==> r.keys == d.keys
    ensures k !in d.vals ==> r.keys == d.keys + [k]
  {
    if k in d.vals then
      RawDict(d.keys, d.vals[k := v])
    else
      var r := RawDict(d.keys + [k], d.vals[k := v]);
      assert WellFormed(r) by {
        assert forall i | 0 <= i < |d.keys| :: r.keys[i] == d.keys[i];
      }
      r
  }

  /** `Object.assign(d, e)`: every own key of `e` in order, later writes win. */
  function Assign<V>(d: Dict<V>, e: Dict<V>): (r: Dict<V>)
    ensures forall k :: k in r.vals <==> k in d.vals || k in e.vals
    ensures forall k | k in r.vals :: r.vals[k] == if k in e.vals then e.vals[k] else d.vals[k]
    ensures |d.keys| <= |r.keys| && r.keys[..|d.keys|] == d.keys
  {
    AssignKeys(d, e, e.keys)
  }

  function AssignKeys<V>(d: Dict<V>, e: Dict<V>, ks: seq<string>): (r: Dict<V>)
    requires forall k | k in ks :: k in e.vals
    ensures forall k :: k in r.vals <==> k in d.vals || k in ks
    ensures forall k | k in r.vals :: r.vals[k] == if k in ks then e.vals[k] else d.vals[k]
    ensures |d.keys| <= |r.keys| && r.keys[..|d.keys|] == d.keys
    decreases |ks|
  {
    if |ks| == 0 then d
    else
      var d' := Put(d, ks[0], e.vals[ks[0]]);
      var r := AssignKeys(d', e, ks[1..]);
      assert forall k :: k in ks <==> k == ks[0] || k in ks[1..];
      assert r.keys[..|d.keys|] == r.keys[..|d'.keys|][..|d.keys|];
      r
  }

  /** The dictionary a table of named entries describes: each key of `keys`
      that `f` defines, in order. */
  function Tabulate<V>(keys: seq<string>, f: string -> Option<V>): (r: Dict<V>)
    ensures forall k :: k in r.vals <==> k in keys && f(k).Some?
    ensures forall k | k in r.vals :: r.vals[k] == f(k).value
  {
    if |keys| == 0 then Empty()
    else
      var d := Tabulate(keys[..|keys| - 1], f);
      var k := keys[|keys| - 1];
      assert forall x :: x in keys <==> x in keys[..|keys| - 1] || x == k;
      if f(k).Some? then Put(d, k, f(k).value) else d
  }

  /** The same keys in the same order, each value transformed. */
  function MapValues<V, W>(d: Dict<V>, f: (string, V) -> W): (r: Dict<W>)
    ensures r.keys == d.keys
    ensures forall k :: k in r.vals <==> k in d.vals
    ensures forall k | k in d.vals :: r.vals[k] == f(k, d.vals[k])
  {
    RawDict(d.keys, map k | k in d.vals :: f(k, d.vals[k]))
  }

  /** Transforming the values commutes with assignment: mapping after a
      `Put` is a `Put` of the mapped value into the mapped dictionary, with
      the keys in the same order. */
  lemma MapValuesPut<V, W>(d: Dict<V>, k: string, v: V, f: (string, V) -> W)
    ensures MapValues(Put(d, k, v), f) == Put(MapValues(d, f), k, f(k, v))
  {
  }

  /** Enumeration of a dictionary's values in key order. */
  function Values<V>(d: Dict<V>): (vs: seq<V>)
    ensures |vs| == |d.keys|
    ensures forall i | 0 <= i < |d.keys| :: vs[i] == d.vals[d.keys[i]]
  {
    seq(|d.keys|, i requires 0 <= i < |d.keys| => d.vals[d.keys[i]])
  }

  /** Adding a new key appends its value to the values in key order. */
  lemma ValuesPut<V>(d: Dict<V>, k: string, v: V)
    requires k !in d.vals
    ensures Values(Put(d, k, v)) == Values(d) + [v]
  {
    var r := Put(d, k, v);
    assert forall i | 0 <= i < |d.keys| :: r.keys[i] == d.keys[i] && d.keys[i] != k;
  }

  lemma KeyIndex<V>(d: Dict<V>, k: string) returns (i: nat)
    requires k in d.vals
    ensures i < |d.keys| && d.keys[i] == k
  {
    i :| 0 <= i < |d.keys| && d.keys[i] == k;
  }

  /** A prefix one longer is the prefix and the next element. */
  lemma TakeOneMore<T>(s: seq<T>, n: nat)
    requires 0 < n <= |s|
    ensures s[..n] == s[..n - 1] + [s[n - 1]]
  {
  }

  /** Storing the next of distinct keys extends the key order by it and
      keeps the values of the keys before it. */
  lemma PutNext<V>(keys: seq<string>, n: nat, done: Dict<V>, v: V)
    requires 0 < n <= |keys| && Distinct(keys) && done.keys == keys[..n - 1]
    ensures Put(done, keys[n - 1], v).keys == keys[..n]
    ensures Put(done, keys[n - 1], v).vals[keys[n - 1]] == v
    ensures forall j | 0 <= j < n - 1 :: Put(done, keys[n - 1], v).vals[keys[j]] == done.vals[keys[j]]
  {
    NextKeyIsNew(keys, n);
    forall j | 0 <= j < n - 1
      ensures keys[j] != keys[n - 1]
    {
      assert keys[j] == keys[..n - 1][j];
    }
  }

  /** Storing the last of distinct keys after all the others completes
      the key order. */
  lemma PutLast<V>(keys: seq<string>, done: Dict<V>, v: V)
    requires |keys| > 0 && Distinct(keys) && done.keys == keys[..|keys| - 1]
    ensures Put(done, keys[|keys| - 1], v).keys == keys
  {
    PutNext(keys, |keys|, done, v);
    assert keys[..|keys|] == keys;
  }

  /** In distinct keys, a key does not occur before its position. */
  lemma NextKeyIsNew(keys: seq<string>, n: nat)
    requires 0 < n <= |keys| && Distinct(keys)
    ensures keys[..n] == keys[..n - 1] + [keys[n - 1]]
    ensures keys[n - 1] !in keys[..n - 1]
  {
    TakeOneMore(keys, n);
  }
}
