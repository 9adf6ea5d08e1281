/** The Redis-style store the repository talks to: plain string keys
    (GET, SET, EXISTS) and hashes (HGET, HSET, HDEL). */
module Redis {
  import opened Wrappers

  type Hash = map<string, string>

  /** The whole store: plain keys and hash keys. */
  datatype Db = Db(strings: map<string, string>, hashes: map<string, Hash>)

  /** The hash stored at `k`; a missing key reads as the empty hash. */
  function HashAt(hashes: map<string, Hash>, k: string): Hash {
    if k in hashes then hashes[k] else map[]
  }

  /** Writes hash `h` at `k`. As in Redis, a hash left without fields
      no longer exists as a key. */
  function StoreHash(hashes: map<string, Hash>, k: string, h: Hash): (r: map<string, Hash>)
    ensures HashAt(r, k) == h && (k in r <==> h != map[])
    ensures forall k' | k' != k :: (k' in r <==> k' in hashes) && HashAt(r, k') == HashAt(hashes, k')
  {
    if h == map[] then hashes - {k} else hashes[k := h]
  }

  /** Redis never holds a hash without fields. */
  predicate NoEmptyHash(hashes: map<string, Hash>) {
    forall k | k in hashes :: hashes[k] != map[]
  }

  /** Writing back the hash a key already holds changes nothing. */
  lemma StoreHashUnchanged(hashes: map<string, Hash>, k: string)
    requires NoEmptyHash(hashes)
    ensures StoreHash(hashes, k, HashAt(hashes, k)) == hashes
  {
  }

  /** GET key */
  function Get(db: Db, k: string): (v: Option<string>)
    ensures v.Some? <==> k in db.strings
    ensures v.Some? ==> v.value == db.strings[k]
  {
    if k in db.strings then Some(db.strings[k]) else None
  }

  /** HGET key field */
  function HGet(db: Db, k: string, f: string): (v: Option<string>)
    ensures v.Some? <==> k in db.hashes && f in db.hashes[k]
    ensures v.Some? ==> v.value == db.hashes[k][f]
  {
    var h := HashAt(db.hashes, k);
    if f in h then Some(h[f]) else None
  }

  /** The connection to the store; its state is the `Db` it holds. */
  class Client {
    var db: Db

    ghost predicate Valid()
      reads this
    {
      NoEmptyHash(db.hashes)
    }

    constructor (db: Db)
      requires NoEmptyHash(db.hashes)
      ensures this.db == db && Valid()
    {
      this.db := db;
    }

    /** SET key value */
    method Set(k: string, v: string)
      requires Valid()
      modifies this
      ensures Valid()
      ensures db == old(db).(strings := old(db).strings[k := v])
      ensures Get(db, k) == Some(v)
    {
      db := db.(strings := db.strings[k := v]);
    }

    /** HSET key field value; the reply is the number of fields created. */
    method HSet(k: string, f: string, v: string) returns (created: nat)
      requires Valid()
      modifies this
      ensures Valid()
      ensures db == old(db).(hashes := StoreHash(old(db).hashes, k, HashAt(old(db).hashes, k)[f := v]))
      ensures HGet(db, k, f) == Some(v)
      ensures created == if f in HashAt(old(db).hashes, k) then 0 else 1
    {
      created := if f in HashAt(db.hashes, k) then 0 else 1;
      db := db.(hashes := StoreHash(db.hashes, k, HashAt(db.hashes, k)[f := v]));
    }

    /** HDEL key field */
    method HDel(k: string, f: string)
      requires Valid()
      modifies this
      ensures Valid()
      ensures db == old(db).(hashes := StoreHash(old(db).hashes, k, HashAt(old(db).hashes, k) - {f}))
      ensures HGet(db, k, f) == None
    {
      db := db.(hashes := StoreHash(db.hashes, k, HashAt(db.hashes, k) - {f}));
    }
  }
}
