// darklua's `ScopedHashMap`, the binding environment of `VersionResolver`: a stack of
// frames, one per open scope, searched from the innermost frame outwards.
module ScopedMap {
  import opened Wrappers

  datatype ScopedHashMap<K(==), V> = ScopedHashMap(frames: seq<map<K, V>>)

  /** `ScopedHashMap::default()`: one empty frame. */
  function Default<K(==), V>(): ScopedHashMap<K, V>
  {
    ScopedHashMap([map[]])
  }

  /** Opens a new, empty innermost frame; the frames already open are kept as they are. */
  function Push<K(==), V>(m: ScopedHashMap<K, V>): (r: ScopedHashMap<K, V>)
    ensures |r.frames| == |m.frames| + 1
    ensures r.frames[..|m.frames|] == m.frames && r.frames[|m.frames|] == map[]
  {
    ScopedHashMap(m.frames + [map[]])
  }

  /** Drops the innermost frame, if there is one. */
  function Pop<K(==), V>(m: ScopedHashMap<K, V>): (r: ScopedHashMap<K, V>)
  {
    if m.frames == [] then m else ScopedHashMap(m.frames[..|m.frames| - 1])
  }

  /**
    * Binds `key` in the innermost frame, replacing a binding it already has there; the outer
    * frames are kept. With no frame open, the binding gets a frame of its own.
    */
  function Insert<K(==), V>(m: ScopedHashMap<K, V>, key: K, value: V): (r: ScopedHashMap<K, V>)
    ensures m.frames == [] ==> r.frames == [map[key := value]]
    ensures m.frames != [] ==>
      && |r.frames| == |m.frames|
      && r.frames[..|m.frames| - 1] == m.frames[..|m.frames| - 1]
      && r.frames[|m.frames| - 1] == m.frames[|m.frames| - 1][key := value]
  {
    if m.frames == [] then ScopedHashMap([map[key := value]])
    else ScopedHashMap(m.frames[..|m.frames| - 1] + [m.frames[|m.frames| - 1][key := value]])
  }

  /** The binding of `key` in the innermost frame that has one. */
  function Get<K(==), V>(m: ScopedHashMap<K, V>, key: K): (r: Option<V>)
    ensures r.Some? <==> exists i :: 0 <= i < |m.frames| && key in m.frames[i]
    decreases |m.frames|
  {
    if m.frames == [] then None
    else
      var last := m.frames[|m.frames| - 1];
      if key in last then Some(last[key]) else Get(ScopedHashMap(m.frames[..|m.frames| - 1]), key)
  }

  /** A binding is visible right after it is made, and hides no other key. */
  lemma GetAfterInsert<K, V>(m: ScopedHashMap<K, V>, key: K, value: V, other: K)
    ensures Get(Insert(m, key, value), key) == Some(value)
    ensures other != key ==> Get(Insert(m, key, value), other) == Get(m, other)
  {
    if m.frames != [] {
      assert Insert(m, key, value).frames[..|m.frames| - 1] == m.frames[..|m.frames| - 1];
    }
  }

  /** An empty frame hides nothing, and popping it restores the map. */
  lemma PushThenPop<K, V>(m: ScopedHashMap<K, V>, key: K)
    ensures Get(Push(m), key) == Get(m, key)
    ensures Pop(Push(m)) == m
  {
    assert Push(m).frames[..|m.frames|] == m.frames;
  }
}
