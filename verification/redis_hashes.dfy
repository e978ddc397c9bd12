/**
 * The Redis hash commands the session store uses, over a keyspace that maps
 * each key to a hash of fields. A key that holds no hash reads as the empty
 * hash, and Redis drops a key whose hash becomes empty.
 */
module RedisHashes {
  import opened Results

  type Hash = map<string, string>
  type Keyspace = map<string, Hash>

  /** The hash stored at `key`, empty when the key does not exist. */
  function HashAt(ks: Keyspace, key: string): Hash
  {
    if key in ks then ks[key] else map[]
  }

  /** `HGET key field` */
  function HGet(ks: Keyspace, key: string, field: string): (r: Option<string>)
    ensures r.Some? <==> field in HashAt(ks, key)
    ensures r.Some? ==> r.value == HashAt(ks, key)[field]
  {
    var h := HashAt(ks, key);
    if field in h then Some(h[field]) else None
  }

  /** `HSET key field value`: sets one field and touches no other key. */
  function HSet(ks: Keyspace, key: string, field: string, value: string): (r: Keyspace)
    ensures HashAt(r, key) == HashAt(ks, key)[field := value]
    ensures forall k :: k != key ==> HashAt(r, k) == HashAt(ks, k)
  {
    ks[key := HashAt(ks, key)[field := value]]
  }

  /** `HDEL key field`: removes one field (a no-op when absent) and touches no other key. */
  function HDel(ks: Keyspace, key: string, field: string): (r: Keyspace)
    ensures HashAt(r, key) == HashAt(ks, key) - {field}
    ensures forall k :: k != key ==> HashAt(r, k) == HashAt(ks, k)
    ensures key in r ==> r[key] != map[]
  {
    var h := HashAt(ks, key) - {field};
    if h == map[] then ks - {key} else ks[key := h]
  }

  /** `DEL key`: removes the whole hash and touches no other key. */
  function Del(ks: Keyspace, key: string): (r: Keyspace)
    ensures key !in r && HashAt(r, key) == map[]
    ensures forall k :: k != key ==> HashAt(r, k) == HashAt(ks, k)
  {
    ks - {key}
  }
}
