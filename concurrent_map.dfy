/** The sharded map of concurrentmap.go: a fixed array of `SHARDS` maps, each
    key living in the shard its 32-bit FNV-1 hash selects. The shard mutexes
    are not modelled; every operation is one sequential step. */
module ConcurrentMaps {
  import opened Wrappers
  import opened Decimal

  type Key = seq<byte>

  const SHARDS: nat := 128

  const OffsetBasis: bv32 := 2166136261
  const Prime32: bv32 := 16777619

  /** FNV-1 continued from hash `h` over the bytes of `s` in order: multiply
      by the prime (wrapping at 2^32), then xor in the byte. */
  function FnvFrom(h: bv32, s: seq<byte>): bv32
    decreases |s|
  {
    if s == [] then h else FnvFrom(FnvStep(h, s[0]), s[1..])
  }

  /** One round of FNV-1: multiply by the prime (wrapping at 2^32), then xor
      in the byte. */
  function FnvStep(h: bv32, b: byte): bv32 {
    (h * Prime32) ^ (b as bv32)
  }

  /** The 32-bit FNV-1 hash of a key. */
  function Fnv1(s: seq<byte>): bv32 {
    FnvFrom(OffsetBasis, s)
  }

  /** Hashing a concatenation is hashing the second part starting from the
      hash of the first: the hash can be computed byte by byte, as `fnv32` does. */
  lemma {:induction false} FnvFromAppend(h: bv32, a: seq<byte>, b: seq<byte>)
    ensures FnvFrom(h, a + b) == FnvFrom(FnvFrom(h, a), b)
    decreases |a|
  {
    if a == [] {
      assert a + b == b;
    } else {
      assert (a + b)[1..] == a[1..] + b;
      FnvFromAppend(FnvStep(h, a[0]), a[1..], b);
    }
  }

  /** The published FNV-1 values for the empty key and for "a" (FNV-1a, which
      xors before multiplying, gives 0xe40c292c for "a"). */
  lemma Fnv1KnownValues()
    ensures Fnv1([]) == 0x811c9dc5
    ensures Fnv1([97]) == 0x050c5d7e
  {
    assert [97][1..] == [];
    assert OffsetBasis * Prime32 == 0x050c5d1f;
    assert FnvStep(OffsetBasis, 97) == 0x050c5d7e;
  }

  /** `fnv32`: the loop over the key's bytes. */
  method Fnv32(key: Key) returns (hash: bv32)
    ensures hash == Fnv1(key)
  {
    hash := OffsetBasis;
    var i := 0;
    while i < |key|
      invariant 0 <= i <= |key|
      invariant FnvFrom(hash, key[i..]) == Fnv1(key)
    {
      assert key[i..][1..] == key[i + 1..];
      hash := FnvStep(hash, key[i]);  // hash *= prime32; hash ^= uint32(key[i])
      i := i + 1;
    }
  }

  /** `getShard`: the index of the shard that holds `key`. */
  function ShardIndex(key: Key): (i: nat)
    ensures i < SHARDS
  {
    (Fnv1(key) % 128) as nat
  }

  /** `ConcurrentMap[V]`: one `items` map per shard. `Contents` is the single
      map the shards represent together. */
  class ConcurrentMap<V> {
    const shards: array<map<Key, V>>
    ghost var Contents: map<Key, V>

    /** Every key is stored only in the shard `ShardIndex` selects, so the
        union of the shards is a well-defined map. */
    ghost predicate Valid()
      reads this, shards
    {
      && shards.Length == SHARDS
      && (forall i, k :: 0 <= i < SHARDS && k in shards[i] ==> ShardIndex(k) == i)
      && (forall k :: k in Contents <==> k in shards[ShardIndex(k)])
      && (forall k :: k in Contents ==> Contents[k] == shards[ShardIndex(k)][k])
    }

    /** `NewConcurrentMap`: always `SHARDS` empty shards; the requested shard
        count is ignored. */
    constructor (requestedShards: int)
      ensures Valid() && fresh(shards)
      ensures Contents == map[]
      ensures forall i :: 0 <= i < SHARDS ==> shards[i] == map[]
    {
      var a := new map<Key, V>[SHARDS];
      for i := 0 to SHARDS
        invariant forall j :: 0 <= j < i ==> a[j] == map[]
      {
        a[i] := map[];
      }
      shards := a;
      Contents := map[];
    }

    /** `Set`: binds `key` to `value` in its shard; no other binding changes. */
    method Set(key: Key, value: V)
      requires Valid()
      modifies this, shards
      ensures Valid()
      ensures Contents == old(Contents)[key := value]
    {
      var i := ShardIndex(key);
      shards[i] := shards[i][key := value];
      Contents := Contents[key := value];
    }

    /** `MSet`: `Set` for every pair of `data`, in any order (the keys of a
        map are distinct); keys outside `data` keep their bindings. */
    method MSet(data: map<Key, V>)
      requires Valid()
      modifies this, shards
      ensures Valid()
      ensures Contents == old(Contents) + data
    {
      var rest := data.Keys;
      ghost var done: set<Key> := {};
      while rest != {}
        invariant Valid()
        invariant rest + done == data.Keys && rest !! done
        invariant Contents == old(Contents) + Restrict(data, done)
        decreases rest
      {
        var key :| key in rest;
        Set(key, data[key]);
        RestrictInsert(old(Contents), data, done, key);
        rest, done := rest - {key}, done + {key};
      }
      RestrictAll(data, done);
    }

    /** `Get`: the value bound to `key`, or None where Go returns `ok == false`. */
    method Get(key: Key) returns (r: Option<V>)
      requires Valid()
      ensures r.Some? <==> key in Contents
      ensures r.Some? ==> r.value == Contents[key]
    {
      var i := ShardIndex(key);
      if key in shards[i] {
        r := Some(shards[i][key]);
      } else {
        r := None;
      }
    }

    /** `Delete`: removes `key` from its shard; no other binding changes. */
    method Delete(key: Key)
      requires Valid()
      modifies this, shards
      ensures Valid()
      ensures Contents == old(Contents) - {key}
    {
      var i := ShardIndex(key);
      shards[i] := shards[i] - {key};
      Contents := Contents - {key};
    }
  }

  /** The part of `m` whose keys lie in `keys`. */
  function Restrict<V>(m: map<Key, V>, keys: set<Key>): map<Key, V> {
    map k | k in m && k in keys :: m[k]
  }

  lemma RestrictAll<V>(m: map<Key, V>, keys: set<Key>)
    requires m.Keys <= keys
    ensures Restrict(m, keys) == m
  {
    assert Restrict(m, keys).Keys == m.Keys;
  }

  lemma RestrictInsert<V>(base: map<Key, V>, m: map<Key, V>, keys: set<Key>, key: Key)
    requires key in m
    ensures (base + Restrict(m, keys))[key := m[key]] == base + Restrict(m, keys + {key})
  {
    var r := Restrict(m, keys + {key});
    assert r == Restrict(m, keys)[key := m[key]];
  }
}
