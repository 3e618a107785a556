/** The in-memory index: two parallel lists `keys` and `vals` that only ever
    grow at the end; a lookup answers with the most recent pair. */
module KvIndex {
  import opened Wrappers

  datatype Index = Index(keys: seq<string>, vals: seq<string>) {
    /** The two lists stay the same length. */
    predicate Valid() {
      |keys| == |vals|
    }
  }

  /** The index of a fresh store. */
  const Empty: Index := Index([], [])

  /** True when position `i` holds the last pair for `key`. */
  predicate LatestAt(idx: Index, key: string, i: int)
    requires idx.Valid()
  {
    0 <= i < |idx.keys| && idx.keys[i] == key && key !in idx.keys[i + 1..]
  }

  /** `get`: scan from the back and answer with the value of the most recent
      pair for `key`, or nothing when the key never occurs. */
  function Get(idx: Index, key: string): (r: Option<string>)
    requires idx.Valid()
    ensures r.None? <==> key !in idx.keys
    ensures forall i :: LatestAt(idx, key, i) ==> r == Some(idx.vals[i])
    decreases |idx.keys|
  {
    if |idx.keys| == 0 then None
    else
      var n := |idx.keys| - 1;
      if idx.keys[n] == key then
        Some(idx.vals[n])
      else
        var prefix := Index(idx.keys[..n], idx.vals[..n]);
        assert idx.keys == prefix.keys + [idx.keys[n]];
        assert forall i :: LatestAt(idx, key, i) ==> LatestAt(prefix, key, i) && idx.vals[i] == prefix.vals[i] by {
          forall i | LatestAt(idx, key, i)
            ensures LatestAt(prefix, key, i) && idx.vals[i] == prefix.vals[i]
          {
            assert idx.keys[i + 1..] == prefix.keys[i + 1..] + [idx.keys[n]];
          }
        }
        Get(prefix, key)
  }

  /** Some position holds the last pair for every key that occurs. */
  lemma LatestExists(idx: Index, key: string)
    requires idx.Valid()
    requires key in idx.keys
    ensures exists i :: LatestAt(idx, key, i)
    decreases |idx.keys|
  {
    var n := |idx.keys| - 1;
    if idx.keys[n] != key {
      var prefix := Index(idx.keys[..n], idx.vals[..n]);
      assert idx.keys == prefix.keys + [idx.keys[n]];
      LatestExists(prefix, key);
      var i :| LatestAt(prefix, key, i);
      assert idx.keys[i + 1..] == prefix.keys[i + 1..] + [idx.keys[n]];
      assert LatestAt(idx, key, i);
    } else {
      assert LatestAt(idx, key, n);
    }
  }

  /** `set` on the index: append one pair. Every earlier pair stays where it
      was, the new value wins for its key and every other key keeps its
      answer. */
  function Put(idx: Index, key: string, val: string): (r: Index)
    ensures |r.keys| == |idx.keys| + 1 && |r.vals| == |idx.vals| + 1
    ensures r.keys[..|idx.keys|] == idx.keys && r.vals[..|idx.vals|] == idx.vals
    ensures r.keys[|idx.keys|] == key && r.vals[|idx.vals|] == val
    ensures idx.Valid() ==> r.Valid()
    ensures idx.Valid() ==> Get(r, key) == Some(val)
    ensures idx.Valid() ==> forall k :: k != key ==> Get(r, k) == Get(idx, k)
  {
    var r := Index(idx.keys + [key], idx.vals + [val]);
    assert r.keys[..|idx.keys|] == idx.keys && r.vals[..|idx.vals|] == idx.vals;
    r
  }
}
