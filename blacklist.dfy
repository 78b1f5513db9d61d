/**
 * The token blacklist kept in the key-value store. A revoked token is stored under
 * a key made of two fixed prefixes and the token; an entry may carry an expiry
 * time on the server clock, after which the store no longer returns it.
 */
module Blacklist {
  import opened Wrappers
  import opened Domain
  import GoStrings

  const ServicePrefix := "FRAX_System."
  const JwtPrefix := "jwt."

  /**
   * The store key of a token. It starts with both prefixes and stripping them gives
   * the token back.
   */
  function JwtKey(token: string): (k: string)
    ensures GoStrings.HasPrefix(k, ServicePrefix + JwtPrefix)
    ensures GoStrings.TrimPrefix(k, ServicePrefix + JwtPrefix) == token
    ensures |k| == |ServicePrefix| + |JwtPrefix| + |token|
  {
    GoStrings.TrimPrefixOfConcat(ServicePrefix + JwtPrefix, token);
    ServicePrefix + JwtPrefix + token
  }

  /** Distinct tokens have distinct keys. */
  lemma JwtKeyInjective(a: string, b: string)
    ensures JwtKey(a) == JwtKey(b) ==> a == b
  {
    if JwtKey(a) == JwtKey(b) {
      calc {
        a;
        GoStrings.TrimPrefix(JwtKey(a), ServicePrefix + JwtPrefix);
        GoStrings.TrimPrefix(JwtKey(b), ServicePrefix + JwtPrefix);
        b;
      }
    }
  }

  /** The TTL argument that keeps a key's current expiry. */
  const KeepTtl := -1

  /** A stored value; `expiresAt` is None for a key without expiry. */
  datatype Entry = Entry(value: string, expiresAt: Option<Time>)

  /** Whether an entry is still visible at `now`. */
  predicate Alive(e: Entry, now: Time)
  {
    e.expiresAt.None? || now < e.expiresAt.value
  }

  /** The three outcomes of a `GET`: a value, the "nil" reply, or a transport error. */
  datatype LookupReply = Found | Missing | Unavailable

  /** Whether a lookup of `token`'s key at `now` finds a live entry. */
  predicate Listed(store: map<string, Entry>, token: string, now: Time)
  {
    JwtKey(token) in store && Alive(store[JwtKey(token)], now)
  }

  /**
   * The store after `SET key value` with a TTL at `now`: a positive TTL expires the
   * key `ttl` later, `KeepTtl` keeps an existing key's expiry, and any other TTL
   * leaves the key without expiry.
   */
  function SetEntry(store: map<string, Entry>, key: string, value: string, ttl: int, now: Time): (s: map<string, Entry>)
    ensures s.Keys == store.Keys + {key}
    ensures s[key].value == value
    ensures ttl > 0 ==> s[key].expiresAt == Some(now + ttl)
    ensures ttl == KeepTtl ==> s[key].expiresAt == (if key in store && Alive(store[key], now) then store[key].expiresAt else None)
    ensures ttl <= 0 && ttl != KeepTtl ==> s[key].expiresAt == None
    ensures forall k :: k in store && k != key ==> s[k] == store[k]
  {
    var expiresAt :=
      if ttl > 0 then Some(now + ttl)
      else if ttl == KeepTtl && key in store && Alive(store[key], now) then store[key].expiresAt
      else None;
    store[key := Entry(value, expiresAt)]
  }

  /** After a write with a positive TTL the token is listed until the TTL has elapsed, and not after. */
  lemma WriteThenListed(store: map<string, Entry>, token: string, ttl: int, now: Time, later: Time)
    requires ttl > 0 && now <= later
    ensures Listed(SetEntry(store, JwtKey(token), "1", ttl, now), token, later) <==> later < now + ttl
  {
  }

  /** A token whose key was never written is not listed. */
  lemma NeverWrittenNotListed(store: map<string, Entry>, token: string, now: Time)
    requires JwtKey(token) !in store
    ensures !Listed(store, token, now)
  {
  }

  /** Listing one token leaves every other token's status as it was. */
  lemma WriteIsolated(store: map<string, Entry>, token: string, other: string, ttl: int, now: Time, later: Time)
    requires other != token
    ensures Listed(SetEntry(store, JwtKey(token), "1", ttl, now), other, later) == Listed(store, other, later)
  {
    JwtKeyInjective(token, other);
  }

  /** The key-value store client. `reachable` stands for whether the server answers. */
  class RedisClient {
    var store: map<string, Entry>

    constructor (store: map<string, Entry>)
      ensures this.store == store
    {
      this.store := store;
    }

    /** Stores the token's key with the value `true` (sent as "1") and the given TTL. */
    method WriteJWTToBlacklist(token: string, ttl: int, now: Time, reachable: bool) returns (r: Outcome<string>)
      modifies this
      ensures r.Pass? <==> reachable
      ensures r.Pass? ==> store == SetEntry(old(store), JwtKey(token), "1", ttl, now)
      ensures r.Fail? ==> store == old(store)
    {
      if !reachable {
        return Fail("connection refused");
      }
      store := SetEntry(store, JwtKey(token), "1", ttl, now);
      r := Pass;
    }

    /** Looks the token's key up: found, the nil reply, or a transport error. */
    method CheckJWTInBlacklist(token: string, now: Time, reachable: bool) returns (r: LookupReply)
      ensures !reachable <==> r == Unavailable
      ensures reachable ==> (r == Found <==> Listed(store, token, now))
    {
      if !reachable {
        return Unavailable;
      }
      var key := JwtKey(token);
      if key in store && Alive(store[key], now) {
        r := Found;
      } else {
        r := Missing;
      }
    }
  }
}
