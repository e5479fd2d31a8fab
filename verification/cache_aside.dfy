/**
 * The read-through step that `findOne` and `findAll` of the clubs, countries
 * and users services share: look the key up, return a hit as it is, and on a
 * miss load from the database, write the loaded value back, and return it.
 */
module CacheAside {
  import opened Wrappers
  import opened HttpErrors
  import opened RedisStore

  /** What the cache holds under `key`, read as a `T`; `None` is a miss. */
  function Cached<V, T>(cache: Store<V>, key: string, view: V -> Option<T>): (r: Option<T>)
    ensures r.Some? ==> Get(cache, key).Some? && view(Get(cache, key).value) == r
    ensures Get(cache, key).None? ==> r.None?
  {
    match Get(cache, key)
    case None => None
    case Some(v) => view(v)
  }

  /** The cache after a read and what the read returned. */
  datatype Read<V, T> = Read(cache: Store<V>, result: Outcome<T>)

  /**
   * `load` is what the database lookup gives: a value, or the error the lookup
   * throws. A hit is returned without a write; a failed load throws its error
   * and writes nothing; a miss that loads `t` writes `wrap(t)` under `key` with
   * the default expiry.
   */
  function ReadLoaded<V, T>(cache: Store<V>, key: string, view: V -> Option<T>, wrap: T -> V,
                            load: Outcome<T>): (r: Read<V, T>)
    ensures Cached(cache, key, view).Some? ==> r == Read(cache, Success(Cached(cache, key, view).value))
    ensures Cached(cache, key, view).None? ==> r.result == load
    ensures r.result.Failure? ==> r.cache == cache
    ensures forall k :: k != key ==> Get(r.cache, k) == Get(cache, k)
    ensures Cached(cache, key, view).None? && load.Success? ==> Get(r.cache, key) == Some(wrap(load.value))
  {
    match Cached(cache, key, view)
    case Some(t) => Read(cache, Success(t))
    case None =>
      match load
      case Failure(e) => Read(cache, Failure(e))
      case Success(t) => Read(Set(cache, key, wrap(t), None), Success(t))
  }

  /** The lookup of `findOne`: a load that finds nothing throws `notFound`. */
  function ReadThrough<V, T>(cache: Store<V>, key: string, view: V -> Option<T>, wrap: T -> V,
                             load: Option<T>, notFound: HttpError): (r: Read<V, T>)
    ensures Cached(cache, key, view).Some? ==> r == Read(cache, Success(Cached(cache, key, view).value))
    ensures Cached(cache, key, view).None? ==>
              r.result == (if load.Some? then Success(load.value) else Failure(notFound))
    ensures r.result.Failure? ==> r.cache == cache
    ensures forall k :: k != key ==> Get(r.cache, k) == Get(cache, k)
    ensures Cached(cache, key, view).None? && load.Some? ==> Get(r.cache, key) == Some(wrap(load.value))
  {
    ReadLoaded(cache, key, view, wrap, if load.Some? then Success(load.value) else Failure(notFound))
  }

  /**
   * When the stored form reads back as what was written, a successful read
   * leaves the key holding its result, so the next read is a hit that returns
   * the same value and writes nothing.
   */
  lemma SecondReadHits<V, T>(cache: Store<V>, key: string, view: V -> Option<T>, wrap: T -> V,
                             load: Option<T>, load2: Option<T>, notFound: HttpError)
    requires forall t :: view(wrap(t)) == Some(t)
    requires ReadThrough(cache, key, view, wrap, load, notFound).result.Success?
    ensures var first := ReadThrough(cache, key, view, wrap, load, notFound);
            ReadThrough(first.cache, key, view, wrap, load2, notFound) == first
  {
    var first := ReadThrough(cache, key, view, wrap, load, notFound);
    if Cached(cache, key, view).None? {
      assert view(wrap(load.value)) == Some(load.value);
      assert Cached(first.cache, key, view) == Some(load.value);
    }
  }

  /** A miss for something that does not exist is not remembered: the next read looks again. */
  lemma NotFoundNotCached<V, T>(cache: Store<V>, key: string, view: V -> Option<T>, wrap: T -> V,
                                load2: Option<T>, notFound: HttpError)
    requires Cached(cache, key, view).None?
    ensures ReadThrough(cache, key, view, wrap, None, notFound).cache == cache
    ensures ReadThrough(ReadThrough(cache, key, view, wrap, None, notFound).cache, key, view, wrap, load2, notFound) ==
              ReadThrough(cache, key, view, wrap, load2, notFound)
  {
  }
}
