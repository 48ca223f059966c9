/** The chained hash map under the process groups (`kernel/data-structs/hashmap.c`). */
module HashMaps {

  datatype KeyType = IntKey | Uint64Key | CharKey | StringKey | BytesKey

  /** A key: its type and its bytes. */
  datatype Key = Key(kind: KeyType, bytes: seq<int>)

  datatype Entry<V> = Entry(key: Key, value: V)

  function TypeBytes(kind: KeyType): seq<int> {
    match kind
    case IntKey => [0, 0, 0, 0]
    case Uint64Key => [1, 0, 0, 0]
    case CharKey => [2, 0, 0, 0]
    case StringKey => [3, 0, 0, 0]
    case BytesKey => [4, 0, 0, 0]
  }

  /** `hashmap_hash_bytes`. */
  function HashBytes(data: seq<int>): bv64 {
    if data == [] then 1469598103934665603
    else (HashBytes(data[..|data| - 1]) ^ ((data[|data| - 1] % 256) as bv64)) * 1099511628211
  }

  /** `hashmap_hash_key`. */
  function HashKey(key: Key): bv64 {
    var hash := HashBytes(TypeBytes(key.kind));
    hash ^ (HashBytes(key.bytes) + 0x9e3779b97f4a7c15 + (hash << 6) + (hash >> 2))
  }

  function Bucket(key: Key, count: nat): (b: nat)
    requires 0 < count
    ensures b < count
  {
    (HashKey(key) as nat) % count
  }

  // ---------------------------------------------------------------------------
  // Chains
  // ---------------------------------------------------------------------------

  ghost predicate Holds<V>(chain: seq<Entry<V>>, key: Key) {
    exists i :: 0 <= i < |chain| && chain[i].key == key
  }

  ghost predicate OneEach<V>(chain: seq<Entry<V>>) {
    forall i, j :: 0 <= i < j < |chain| ==> chain[i].key != chain[j].key
  }

  /** Chain `b` holds exactly the part of `model` that hashes to `b`, each key once. */
  ghost predicate ChainOk<V>(chain: seq<Entry<V>>, model: map<Key, V>, b: nat, count: nat)
    requires 0 < count
  {
    && OneEach(chain)
    && (forall i :: 0 <= i < |chain| ==> chain[i].key in model && model[chain[i].key] == chain[i].value && Bucket(chain[i].key, count) == b)
    && (forall k :: k in model && Bucket(k, count) == b ==> Holds(chain, k))
  }

  class HashMap<V(!new)> {
    var buckets: seq<seq<Entry<V>>>
    var size: nat
    ghost var model: map<Key, V>

    ghost predicate Valid()
      reads this
    {
      && 0 < |buckets| && size == |model|
      && forall b :: 0 <= b < |buckets| ==> ChainOk(buckets[b], model, b, |buckets|)
    }

    /** `hashmap_new`. */
    constructor (count: nat)
      ensures Valid() && model == map[]
    {
      var n := if count == 0 then 16 else count;
      buckets := seq(n, _ => []);
      size, model := 0, map[];
    }

    /** `hashmap_find_entry`. */
    method Find(key: Key) returns (found: bool, b: nat, i: nat)
      requires Valid()
      ensures found <==> key in model
      ensures b == Bucket(key, |buckets|) && (found ==> i < |buckets[b]| && buckets[b][i] == Entry(key, model[key]))
    {
      hide Bucket;
      b := Bucket(key, |buckets|);
      i := 0;
      while i < |buckets[b]|
        invariant i <= |buckets[b]| && forall j :: 0 <= j < i ==> buckets[b][j].key != key
      {
        if buckets[b][i].key == key {
          return true, b, i;
        }
        i := i + 1;
      }
      found := false;
    }

    /** `hashmap_get`. */
    method Get(key: Key, absent: V) returns (found: bool, value: V)
      requires Valid()
      ensures found <==> key in model
      ensures value == if found then model[key] else absent
    {
      hide Bucket;
      var b, i;
      found, b, i := Find(key);
      value := if found then buckets[b][i].value else absent;
    }

    /** `hashmap_put`; `room` says whether memory for a new entry can be had. */
    method Put(key: Key, value: V, room: bool) returns (ok: bool)
      requires Valid()
      modifies this
      ensures Valid() && ok == (key in old(model) || room)
      ensures model == if ok then old(model)[key := value] else old(model)
    {
      hide Bucket;
      var found, b, i := Find(key);
      if found {
        Replaced(buckets, model, key, value, b, i);
        buckets := buckets[b := buckets[b][i := Entry(key, value)]];
        model := model[key := value];
        return true;
      }
      if !room {
        return false;
      }
      Inserted(buckets, model, key, value, b);
      buckets := buckets[b := [Entry(key, value)] + buckets[b]];
      size := size + 1;
      model := model[key := value];
      ok := true;
    }

    /** A change of a stored value through the pointer that `hashmap_get` returned. */
    method Change(key: Key, value: V)
      requires Valid() && key in model
      modifies this
      ensures Valid() && model == old(model)[key := value]
    {
      hide Bucket;
      var found, b, i := Find(key);
      Replaced(buckets, model, key, value, b, i);
      buckets := buckets[b := buckets[b][i := Entry(key, value)]];
      model := model[key := value];
    }

    /** `hashmap_remove`. */
    method Remove(key: Key) returns (ok: bool)
      requires Valid()
      modifies this
      ensures Valid() && ok == (key in old(model)) && model == old(model) - {key}
    {
      hide Bucket;
      var found, b, i := Find(key);
      if !found {
        return false;
      }
      Erased(buckets, model, key, b, i);
      buckets := buckets[b := buckets[b][..i] + buckets[b][i + 1..]];
      size := size - 1;
      model := model - {key};
      ok := true;
    }
  }

  ghost predicate ChainsOk<V>(buckets: seq<seq<Entry<V>>>, model: map<Key, V>) {
    0 < |buckets| && forall b :: 0 <= b < |buckets| ==> ChainOk(buckets[b], model, b, |buckets|)
  }

  lemma Replaced<V>(buckets: seq<seq<Entry<V>>>, model: map<Key, V>, key: Key, value: V, b: nat, i: nat)
    requires ChainsOk(buckets, model) && b == Bucket(key, |buckets|) && i < |buckets[b]| && buckets[b][i].key == key
    ensures ChainsOk(buckets[b := buckets[b][i := Entry(key, value)]], model[key := value]) && |model[key := value]| == |model|
  {
    hide Bucket;
    var chain, chain' := buckets[b], buckets[b][i := Entry(key, value)];
    forall k | Holds(chain, k) ensures Holds(chain', k) {
      var j :| 0 <= j < |chain| && chain[j].key == k;
      assert chain'[j].key == k;
    }
    assert key in model;
    assert model[key := value].Keys == model.Keys;
    OtherChains(buckets, model, key, model[key := value], b);
  }

  lemma Inserted<V>(buckets: seq<seq<Entry<V>>>, model: map<Key, V>, key: Key, value: V, b: nat)
    requires ChainsOk(buckets, model) && b == Bucket(key, |buckets|) && key !in model
    ensures ChainsOk(buckets[b := [Entry(key, value)] + buckets[b]], model[key := value]) && |model[key := value]| == |model| + 1
  {
    hide Bucket;
    var chain, chain' := buckets[b], [Entry(key, value)] + buckets[b];
    forall k | Holds(chain, k) ensures Holds(chain', k) {
      var j :| 0 <= j < |chain| && chain[j].key == k;
      assert chain'[j + 1].key == k;
    }
    assert Holds(chain', key) by { assert chain'[0].key == key; }
    assert model[key := value].Keys == model.Keys + {key};
    OtherChains(buckets, model, key, model[key := value], b);
  }

  lemma Erased<V>(buckets: seq<seq<Entry<V>>>, model: map<Key, V>, key: Key, b: nat, i: nat)
    requires ChainsOk(buckets, model) && b == Bucket(key, |buckets|) && i < |buckets[b]| && buckets[b][i].key == key
    ensures ChainsOk(buckets[b := buckets[b][..i] + buckets[b][i + 1..]], model - {key}) && |model - {key}| == |model| - 1
  {
    hide Bucket;
    var chain, chain' := buckets[b], buckets[b][..i] + buckets[b][i + 1..];
    forall k | Holds(chain, k) && k != key ensures Holds(chain', k) {
      var j :| 0 <= j < |chain| && chain[j].key == k;
      assert chain'[if j < i then j else j - 1].key == k;
    }
    assert key in model;
    assert (model - {key}).Keys == model.Keys - {key};
    OtherChains(buckets, model, key, model - {key}, b);
  }

  /** The chains of other buckets do not see a change at `key`. */
  lemma OtherChains<V>(buckets: seq<seq<Entry<V>>>, model: map<Key, V>, key: Key, model': map<Key, V>, b: nat)
    requires ChainsOk(buckets, model) && b == Bucket(key, |buckets|)
    requires forall k :: k != key ==> (k in model' <==> k in model) && (k in model ==> model'[k] == model[k])
    ensures forall c :: 0 <= c < |buckets| && c != b ==> ChainOk(buckets[c], model', c, |buckets|)
  {
    hide Bucket, Holds, OneEach;
  }
}
