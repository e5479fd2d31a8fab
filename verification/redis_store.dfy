/**
 * The Redis cache as the service wrapper uses it: a map from key to stored
 * string with its expiry. The stored string is either a JSON document, kept
 * here as the decoded value, or the empty string.
 */
module RedisStore {
  import opened Wrappers
  import opened Text

  /** The `EX` argument used when `CACHE_TTL` is unset or empty. */
  const FALLBACK_TTL := "60"

  /** What a key holds: a JSON encoding of a value, or `""`. */
  datatype Raw<V> = Json(value: V) | Blank

  /**
   * A stored string and the `EX` argument it was written with, as the text
   * the client sends: a number is sent as its decimal numeral.
   */
  datatype Entry<V> = Entry(raw: Raw<V>, ttl: string)

  datatype Store<V> = Store(entries: map<string, Entry<V>>, defaultTtl: string)

  /**
   * `configService.get('CACHE_TTL') || 60`. The configuration holds the
   * environment's text, which no schema converts, so every non-empty text is
   * truthy and kept as it is, "0" included; only an unset or empty variable
   * falls back to 60.
   */
  function DefaultTtl(configured: Option<string>): (ttl: string)
    ensures configured.Some? && configured.value != "" ==> ttl == configured.value
    ensures configured.None? || configured.value == "" ==> ttl == FALLBACK_TTL
    ensures ttl != ""
  {
    if configured.Some? && configured.value != "" then configured.value else FALLBACK_TTL
  }

  /** A freshly connected, empty store. */
  function Connect<V>(configured: Option<string>): (s: Store<V>)
    ensures s.entries == map[] && s.defaultTtl == DefaultTtl(configured)
    ensures forall k :: Get(s, k).None?
    ensures forall p :: KeysMatching(s, p) == {}
  {
    Store(map[], DefaultTtl(configured))
  }

  /** `get(key)`: `null` for a missing key or an empty string, else the decoded value. */
  function Get<V>(s: Store<V>, key: string): (r: Option<V>)
    ensures r.Some? <==> key in s.entries && s.entries[key].raw.Json?
    ensures r.Some? ==> r.value == s.entries[key].raw.value
  {
    if key in s.entries && s.entries[key].raw.Json? then Some(s.entries[key].raw.value) else None
  }

  /** `set(key, value, ttl)`: `ttl || defaultTtl`, so a zero ttl means the default rather than no expiry. */
  function Set<V>(s: Store<V>, key: string, value: V, ttl: Option<int>): (r: Store<V>)
    ensures Get(r, key) == Some(value)
    ensures forall k :: k != key ==> Get(r, k) == Get(s, k)
    ensures r.entries.Keys == s.entries.Keys + {key}
    ensures r.entries[key].ttl == if ttl.Some? && ttl.value != 0 then IntToString(ttl.value) else s.defaultTtl
    ensures r.defaultTtl == s.defaultTtl
  {
    var expiry := if ttl.Some? && ttl.value != 0 then IntToString(ttl.value) else s.defaultTtl;
    Store(s.entries[key := Entry(Json(value), expiry)], s.defaultTtl)
  }

  /** `del(key)`: that key goes, every other key stays as it was. */
  function Del<V>(s: Store<V>, key: string): (r: Store<V>)
    ensures key !in r.entries && Get(r, key) == None
    ensures forall k :: k != key ==> (k in r.entries <==> k in s.entries)
    ensures forall k :: k in r.entries ==> r.entries[k] == s.entries[k]
    ensures r.defaultTtl == s.defaultTtl
  {
    Store(s.entries - {key}, s.defaultTtl)
  }

  /** The glob subset in use: a trailing `*` matches any suffix, otherwise the key must be equal. */
  predicate Matches(pattern: string, key: string) {
    if |pattern| > 0 && pattern[|pattern| - 1] == '*' then IsPrefix(pattern[..|pattern| - 1], key)
    else key == pattern
  }

  /** `KEYS pattern`. */
  function KeysMatching<V>(s: Store<V>, pattern: string): (ks: set<string>)
    ensures forall k :: k in ks <==> k in s.entries && Matches(pattern, k)
  {
    set k | k in s.entries && Matches(pattern, k)
  }

  /** The store afterwards, and the keys of the `DEL` issued, if one was. */
  datatype Invalidation<V> = Invalidation(store: Store<V>, deleted: Option<set<string>>)

  /**
   * `invalidateByPattern(pattern)`: enumerate the matching keys, then delete
   * them all in one `DEL`, which is skipped when nothing matched.
   */
  function InvalidateByPattern<V>(s: Store<V>, pattern: string): (r: Invalidation<V>)
    ensures r.deleted.None? <==> forall k :: k in s.entries ==> !Matches(pattern, k)
    ensures r.deleted.Some? ==> r.deleted.value != {} && r.deleted.value == KeysMatching(s, pattern)
    ensures forall k :: k in r.store.entries <==> k in s.entries && !Matches(pattern, k)
    ensures forall k :: k in r.store.entries ==> r.store.entries[k] == s.entries[k]
    ensures r.store.defaultTtl == s.defaultTtl
  {
    var keys := KeysMatching(s, pattern);
    if keys == {} then Invalidation(s, None)
    else Invalidation(Store(s.entries - keys, s.defaultTtl), Some(keys))
  }

  /** `clearCache()`: `FLUSHDB`. */
  function ClearCache<V>(s: Store<V>): (r: Store<V>)
    ensures forall k :: Get(r, k) == None
    ensures |r.entries| == 0 && r.defaultTtl == s.defaultTtl
  {
    Store(map[], s.defaultTtl)
  }

  /** A read after a write of the same key, with no delete between, returns the value written. */
  lemma GetAfterSet<V>(s: Store<V>, key: string, value: V, ttl: Option<int>, other: string, v2: V, ttl2: Option<int>)
    requires other != key
    ensures Get(Set(Set(s, key, value, ttl), other, v2, ttl2), key) == Some(value)
    ensures Get(Del(Set(s, key, value, ttl), other), key) == Some(value)
  {
  }
}
