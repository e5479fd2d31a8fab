/**
 * The cache keys of the three cached services: `<base>:<id>` for one entity,
 * `<base>:page=<p>:limit=<l>` for one page, and the invalidation pattern
 * `<base>*` that every mutation deletes.
 */
module CacheKeys {
  import opened Text
  import opened RedisStore

  const CLUBS := "clubs"
  const COUNTRIES := "countries"
  const USERS := "users"

  predicate IsBase(base: string) {
    base == CLUBS || base == COUNTRIES || base == USERS
  }

  /** `${base}:${id}`. */
  function EntityKey(base: string, id: int): (k: string)
    ensures IsPrefix(base + ":", k)
  {
    base + ":" + IntToString(id)
  }

  /** `${base}:page=${page}:limit=${limit}`. */
  function PageKey(base: string, page: int, limit: int): (k: string)
    ensures IsPrefix(base + ":page=", k)
  {
    base + ":page=" + IntToString(page) + ":limit=" + IntToString(limit)
  }

  /** `${base}*`. */
  function Namespace(base: string): string {
    base + "*"
  }

  /** Distinct ids get distinct keys. */
  lemma {:induction false} EntityKeyInjective(base: string, a: int, b: int)
    ensures EntityKey(base, a) == EntityKey(base, b) ==> a == b
  {
    if EntityKey(base, a) == EntityKey(base, b) {
      assert EntityKey(base, a)[|base| + 1..] == IntToString(a);
      assert EntityKey(base, b)[|base| + 1..] == IntToString(b);
      IntToStringInjective(a, b);
    }
  }

  lemma NoColon(i: int)
    ensures ':' !in IntToString(i)
  {
  }

  /** Distinct (page, limit) pairs get distinct keys. */
  lemma {:induction false} PageKeyInjective(base: string, p1: int, l1: int, p2: int, l2: int)
    ensures PageKey(base, p1, l1) == PageKey(base, p2, l2) ==> p1 == p2 && l1 == l2
  {
    if PageKey(base, p1, l1) == PageKey(base, p2, l2) {
      var n := |base + ":page="|;
      var k1 := PageKey(base, p1, l1);
      assert k1[n..] == IntToString(p1) + (":" + ("limit=" + IntToString(l1)));
      assert PageKey(base, p2, l2)[n..] == IntToString(p2) + (":" + ("limit=" + IntToString(l2)));
      NoColon(p1);
      NoColon(p2);
      SplitAtSeparator(IntToString(p1), IntToString(p2), "limit=" + IntToString(l1), "limit=" + IntToString(l2), ':');
      IntToStringInjective(p1, p2);
      assert ("limit=" + IntToString(l1))[6..] == IntToString(l1);
      assert ("limit=" + IntToString(l2))[6..] == IntToString(l2);
      IntToStringInjective(l1, l2);
    }
  }

  /** An entity key and a page key of the same base never collide. */
  lemma EntityKeyNotPageKey(base: string, id: int, page: int, limit: int)
    ensures EntityKey(base, id) != PageKey(base, page, limit)
  {
    var n := |base| + 1;
    assert EntityKey(base, id)[n] == IntToString(id)[0];
    assert PageKey(base, page, limit)[n] == 'p';
  }

  /** `<base>*` matches every key the service writes. */
  lemma NamespaceCovers(base: string, id: int, page: int, limit: int)
    ensures Matches(Namespace(base), EntityKey(base, id))
    ensures Matches(Namespace(base), PageKey(base, page, limit))
  {
    assert Namespace(base)[..|base|] == base;
    assert EntityKey(base, id)[..|base|] == base;
    assert PageKey(base, page, limit)[..|base|] == base;
  }

  /** Two texts that differ at a common position are not prefixes of one another. */
  lemma DifferAt(a: string, b: string, rest: string, k: nat)
    requires k < |a| && k < |b| && a[k] != b[k]
    ensures !IsPrefix(a, b + rest)
  {
    assert (b + rest)[k] == b[k];
  }

  /** The three namespaces are disjoint: invalidating one never deletes another's keys. */
  lemma {:induction false} NamespacesDisjoint(b1: string, b2: string, rest: string)
    requires IsBase(b1) && IsBase(b2) && b1 != b2
    ensures !Matches(Namespace(b1), b2 + rest)
  {
    assert Namespace(b1)[..|Namespace(b1)| - 1] == b1;
    if (b1 == CLUBS && b2 == COUNTRIES) || (b1 == COUNTRIES && b2 == CLUBS) {
      DifferAt(b1, b2, rest, 1);
    } else {
      DifferAt(b1, b2, rest, 0);
    }
  }
}
