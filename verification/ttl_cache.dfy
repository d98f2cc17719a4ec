/** The expiring in-memory cache used for the negative geocoding results and
    for artist genres: a map from key to value and expiry instant. Entries are
    read as absent once their expiry has passed; the background sweep that
    eventually deletes them is not modelled, since reads never see a swept
    entry anyway. Instants and durations are integer nanoseconds. */
module TtlCache {
  import opened Wrappers

  datatype Entry<V> = Entry(value: V, expiresAt: int)

  type Cache<K, V> = map<K, Entry<V>>

  const Second: int := 1_000_000_000
  const Minute: int := 60 * Second

  /** The expiry both caches are created with. */
  const DefaultTtl: int := 10 * Minute

  /** An entry is live up to and including its expiry instant. */
  predicate Live<K, V>(c: Cache<K, V>, k: K, now: int) {
    k in c && now <= c[k].expiresAt
  }

  /** A read: the stored value while it is live, nothing otherwise. */
  function Get<K, V>(c: Cache<K, V>, k: K, now: int): (r: Option<V>)
    ensures r.Some? <==> Live(c, k, now)
    ensures r.Some? ==> r.value == c[k].value
  {
    if k in c && now <= c[k].expiresAt then Some(c[k].value) else None
  }

  /** A write with the default expiry, replacing any earlier entry. */
  function Put<K, V>(c: Cache<K, V>, k: K, v: V, now: int): Cache<K, V> {
    c[k := Entry(v, now + DefaultTtl)]
  }

  /** A value just written is read back for the whole expiry window and is
      gone afterwards; other keys read as before. */
  lemma GetAfterPut<K, V>(c: Cache<K, V>, k: K, v: V, now: int, later: int, other: K)
    requires other != k
    ensures now <= later <= now + DefaultTtl ==> Get(Put(c, k, v, now), k, later) == Some(v)
    ensures later > now + DefaultTtl ==> Get(Put(c, k, v, now), k, later) == None
    ensures Get(Put(c, k, v, now), other, later) == Get(c, other, later)
  {
  }
}
