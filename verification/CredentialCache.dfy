/** The three tiers as the object that holds them (auth/cache.go). */
module CredentialCache {
  import opened Octets
  import opened Credentials
  import Lru

  const CONN_MEMO_CAPACITY := 4096

  const TOKEN_CACHE_CAP := 1024

  const CRED_CACHE_CAP := 4096

  class Caches {
    const credential: Lru.Cache<string, Entry>
    const token: Lru.Cache<string, Entry>
    const connMemo: Lru.Cache<string, (Decision, nat)>

    ghost predicate Valid()
      reads credential, token, connMemo
    {
      && credential.Valid() && token.Valid() && connMemo.Valid() && credential != token
      && (forall k :: k in credential.data ==> !credential.data[k].d.Granted?)
      && (forall k :: k in token.data ==> token.data[k].d.Granted?)
    }

    constructor ()
      ensures Valid() && fresh(credential) && fresh(token) && fresh(connMemo)
      ensures credential.data == map[] && token.data == map[] && connMemo.data == map[]
    {
      credential := new Lru.Cache(CRED_CACHE_CAP);
      token := new Lru.Cache(TOKEN_CACHE_CAP);
      connMemo := new Lru.Cache(CONN_MEMO_CAPACITY);
    }

    /** `credLookup`: a hit exactly when the entry is fresh; a stale entry is dropped, a used one kept warm. */
    method CredLookup(key: string, gen: nat, now: int) returns (o: Option<Decision>)
      requires Valid()
      modifies credential
      ensures Valid()
      ensures var was := old(credential.data);
              var hit := key in was && Fresh(was[key], gen, now);
              && o == (if hit then Some(was[key].d) else None)
              && credential.data == if hit then was[key := Touched(was[key], now)] else was - {key}
    {
      var e := credential.Peek(key);
      if e.None? || e.value.gen != gen {
        if e.Some? {
          credential.Remove(key);
        }
        assert old(credential.data) - {key} == credential.data;
        return None;
      }
      if e.value.d.Accepted? {
        if now - e.value.inserted > POSITIVE_TTL || now - e.value.lastHit > POSITIVE_IDLE {
          credential.Remove(key);
          return None;
        }
        credential.Put(key, e.value.(lastHit := now));
        return Some(e.value.d);
      }
      if now - e.value.inserted > NEGATIVE_TTL {
        credential.Remove(key);
        return None;
      }
      assert credential.data[key := e.value] == credential.data;
      return Some(e.value.d);
    }

    /** `credStore`. */
    method CredStore(key: string, d: Decision, gen: nat, now: int)
      requires Valid() && !d.Granted?
      modifies credential
      ensures Valid()
      ensures exists gone :: key !in gone && |gone| <= 1
                && credential.data == (old(credential.data) - gone)[key := Entry(d, gen, now, now)]
    {
      ghost var was, keys := credential.data, credential.keys;
      credential.Put(key, Entry(d, gen, now, now));
      StoreEvictsAtMostOne(was, keys, credential.cap, key, Entry(d, gen, now, now));
    }

    /** `tokenLookup`: the credential's own expiry wins when it is earlier. */
    method TokenLookup(digest: string, gen: nat, now: int) returns (o: Option<Decision>)
      requires Valid()
      modifies token
      ensures Valid()
      ensures var was := old(token.data);
              var hit := digest in was && Fresh(was[digest], gen, now);
              && o == (if hit then Some(was[digest].d) else None)
              && token.data == if hit then was else was - {digest}
    {
      var e := token.Peek(digest);
      if e.None? {
        assert old(token.data) - {digest} == token.data;
        return None;
      }
      if e.value.gen != gen || now - e.value.inserted >= TOKEN_TTL
         || (e.value.d.expires.Some? && now >= e.value.d.expires.value) {
        token.Remove(digest);
        return None;
      }
      return Some(e.value.d);
    }

    /** `tokenStore`. */
    method TokenStore(digest: string, d: Decision, gen: nat, now: int)
      requires Valid() && d.Granted?
      modifies token
      ensures Valid()
      ensures exists gone :: digest !in gone && |gone| <= 1
                && token.data == (old(token.data) - gone)[digest := Entry(d, gen, now, now)]
    {
      ghost var was, keys := token.data, token.keys;
      token.Put(digest, Entry(d, gen, now, now));
      StoreEvictsAtMostOne(was, keys, token.cap, digest, Entry(d, gen, now, now));
    }

    /** `connLookup`: nothing but the generation ends an entry. */
    method ConnLookup(digest: string, gen: nat) returns (o: Option<Decision>)
      requires Valid()
      modifies connMemo
      ensures Valid()
      ensures var was := old(connMemo.data);
              var hit := digest in was && was[digest].1 == gen;
              && o == (if hit then Some(was[digest].0) else None)
              && connMemo.data == if hit then was else was - {digest}
    {
      var e := connMemo.Peek(digest);
      if e.None? {
        assert old(connMemo.data) - {digest} == connMemo.data;
        return None;
      }
      if e.value.1 != gen {
        connMemo.Remove(digest);
        return None;
      }
      return Some(e.value.0);
    }

    /** `connStore`. */
    method ConnStore(digest: string, d: Decision, gen: nat)
      requires Valid()
      modifies connMemo
      ensures Valid()
      ensures exists gone :: digest !in gone && |gone| <= 1
                && connMemo.data == (old(connMemo.data) - gone)[digest := (d, gen)]
    {
      ghost var was, keys := connMemo.data, connMemo.keys;
      connMemo.Put(digest, (d, gen));
      StoreEvictsAtMostOne(was, keys, connMemo.cap, digest, (d, gen));
    }
  }

  /** A store is the protocol's store step, preceded by the eviction of at most one other key. */
  lemma StoreEvictsAtMostOne<V>(data: map<string, V>, keys: seq<string>, cap: nat, k: string, v: V)
    ensures exists gone :: k !in gone && |gone| <= 1 && Lru.Stored(data, keys, cap, k, v) == (data - gone)[k := v]
  {
    var gone := if k !in data && |keys| >= cap && keys != [] && keys[0] != k then {keys[0]} else {};
    assert k !in gone && |gone| <= 1;
    assert Lru.Stored(data, keys, cap, k, v) == (data - gone)[k := v];
  }

  function Find<K, V>(m: map<K, V>, k: K): Option<V> {
    if k in m then Some(m[k]) else None
  }

  /** The protocol's single cache is the two tiers side by side; a key is of one or the other. */
  ghost predicate IsTiers(cache: map<Key, Entry>, cred: map<string, Entry>, token: map<string, Entry>) {
    && (forall k :: Find(cache, CredKey(k)) == Find(cred, k))
    && (forall k :: Find(cache, TokenKey(k)) == Find(token, k))
  }

  /** A tier's lookup is the protocol's lookup step, on both sides: what is served and what is left. */
  lemma CredLookupRefinesProtocol(s: State, t: nat, th: Thread, now: int, cred: map<string, Entry>,
          token: map<string, Entry>)
    requires th.Captured? && th.req.ByPassword? && IsTiers(s.cache, cred, token)
    ensures var k := KeyOf(th.req).mac;
            var hit := k in cred && Fresh(cred[k], th.gen, now);
            && hit == Hits(s, th, now)
            && IsTiers(LookupStep(s, t, th, now).cache,
                       if hit then cred[k := Touched(cred[k], now)] else cred - {k}, token)
  {
    var k := KeyOf(th.req).mac;
    assert Find(s.cache, CredKey(k)) == Find(cred, k);
  }

  lemma TokenLookupRefinesProtocol(s: State, t: nat, th: Thread, now: int, cred: map<string, Entry>,
          token: map<string, Entry>)
    requires th.Captured? && th.req.ByToken? && IsTiers(s.cache, cred, token)
    requires forall k :: k in token ==> token[k].d.Granted?
    ensures var k := KeyOf(th.req).digest;
            var hit := k in token && Fresh(token[k], th.gen, now);
            && hit == Hits(s, th, now)
            && IsTiers(LookupStep(s, t, th, now).cache, cred, if hit then token else token - {k})
  {
    var k := KeyOf(th.req).digest;
    assert Find(s.cache, TokenKey(k)) == Find(token, k);
  }
}
