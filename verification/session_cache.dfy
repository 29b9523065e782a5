/** The Redis session cache: sessions under their token, an index from session id to
    token, and cancellation by id through the index with a scan for what it misses. */
module SessionCache {
  import opened Collections

  datatype SessionStatus = Created | Active | Completed | Failed | Cancelled | Expired

  datatype Session = Session(id: string, token: string, status: SessionStatus, expiresAt: Option<int>, content: int)

  /** A stored string: an encoded session, or the token an index entry holds. */
  datatype Value = Encoded(session: Session) | Pointer(token: string)

  type Store = map<string, Value>

  datatype Lookup = Miss | Hit(session: Session) | Undecodable

  function Cancel(s: Session): Session {
    s.(status := Cancelled, expiresAt := None)
  }

  function TokenKey(prefix: string, token: string): string {
    prefix + token
  }

  function IdPrefix(prefix: string): string {
    prefix + "id:"
  }

  function IdKey(prefix: string, id: string): string {
    IdPrefix(prefix) + id
  }

  function IdOfKey(prefix: string, key: string): string
    requires IdPrefix(prefix) <= key
  {
    key[|IdPrefix(prefix)|..]
  }

  lemma TokenKeyIsInjective(prefix: string, a: string, b: string)
    ensures TokenKey(prefix, a) == TokenKey(prefix, b) ==> a == b
  {
    assert TokenKey(prefix, a)[|prefix|..] == a && TokenKey(prefix, b)[|prefix|..] == b;
  }

  lemma IdKeyRoundTrip(prefix: string, id: string)
    ensures IdPrefix(prefix) <= IdKey(prefix, id) && IdOfKey(prefix, IdKey(prefix, id)) == id
  {
  }

  /** A token key looks like an index key only for a token that starts with `id:`. */
  lemma TokenKeyIsNoIndexKey(prefix: string, token: string)
    ensures IdPrefix(prefix) <= TokenKey(prefix, token) <==> "id:" <= token
  {
    var key := TokenKey(prefix, token);
    assert key[|prefix|..] == token;
    if IdPrefix(prefix) <= key {
      assert key[..|prefix| + 3] == prefix + "id:";
      assert token[..3] == key[|prefix|..|prefix| + 3] == "id:";
    }
    if "id:" <= token {
      assert key[..|prefix| + 3] == prefix + token[..3];
    }
  }

  /** Every session id has one token, no two ids share one, and no token starts
      with `id:`. */
  ghost predicate TokensOk(tokenOf: string -> string) {
    && (forall a, b :: tokenOf(a) == tokenOf(b) ==> a == b)
    && (forall id :: !("id:" <= tokenOf(id)))
  }

  /** What a cached entry may say; index entries may dangle or be missing. */
  ghost predicate EntryOk(prefix: string, tokenOf: string -> string, key: string, value: Value) {
    && prefix <= key
    && if IdPrefix(prefix) <= key then value == Pointer(tokenOf(IdOfKey(prefix, key)))
       else value.Encoded? && key == TokenKey(prefix, value.session.token) && value.session.token == tokenOf(value.session.id)
  }

  ghost predicate StoreOk(prefix: string, tokenOf: string -> string, store: Store) {
    TokensOk(tokenOf) && forall key :: key in store ==> EntryOk(prefix, tokenOf, key, store[key])
  }

  function Written(prefix: string, store: Store, s: Session): Store {
    store[TokenKey(prefix, s.token) := Encoded(s)][IdKey(prefix, s.id) := Pointer(s.token)]
  }

  lemma WrittenIsOk(prefix: string, tokenOf: string -> string, store: Store, s: Session)
    requires StoreOk(prefix, tokenOf, store) && s.token == tokenOf(s.id)
    ensures StoreOk(prefix, tokenOf, Written(prefix, store, s))
    ensures TokenKey(prefix, s.token) != IdKey(prefix, s.id)
  {
    TokenKeyIsNoIndexKey(prefix, s.token);
    IdKeyRoundTrip(prefix, s.id);
  }

  /** The session that the index entry of an id leads to is the one with that id. */
  lemma IndexFindsTheSession(prefix: string, tokenOf: string -> string, store: Store, id: string)
    requires StoreOk(prefix, tokenOf, store) && IdKey(prefix, id) in store
    ensures store[IdKey(prefix, id)] == Pointer(tokenOf(id))
    ensures TokenKey(prefix, tokenOf(id)) in store ==>
      store[TokenKey(prefix, tokenOf(id))].Encoded? && store[TokenKey(prefix, tokenOf(id))].session.id == id
  {
    IdKeyRoundTrip(prefix, id);
    assert EntryOk(prefix, tokenOf, IdKey(prefix, id), store[IdKey(prefix, id)]);
    var key := TokenKey(prefix, tokenOf(id));
    if key in store {
      TokenKeyIsNoIndexKey(prefix, tokenOf(id));
      assert EntryOk(prefix, tokenOf, key, store[key]);
      TokenKeyIsInjective(prefix, tokenOf(id), store[key].session.token);
    }
  }

  function Outcome(s: Session, cancelled: set<string>): Session {
    if s.id in cancelled then Cancel(s) else s
  }

  /** `now` is `before` with exactly the sessions of `cancelled` cancelled and their
      index entries restored. */
  ghost predicate CancelledIn(prefix: string, tokenOf: string -> string, before: Store, now: Store, cancelled: set<string>) {
    && (forall id :: id in cancelled ==> TokenKey(prefix, tokenOf(id)) in before)
    && forall key :: AgreesAt(prefix, before, now, cancelled, key)
  }

  predicate AgreesAt(prefix: string, before: Store, now: Store, cancelled: set<string>, key: string) {
    if IdPrefix(prefix) <= key then key in now <==> key in before || IdOfKey(prefix, key) in cancelled
    else
      && (key in now <==> key in before)
      && (key in before && before[key].Encoded? ==> now[key] == Encoded(Outcome(before[key].session, cancelled)))
  }

  /** No session under these keys is still wanted. */
  ghost predicate Searched(store: Store, keys: seq<string>, wanted: set<string>) {
    forall key :: key in keys && key in store && store[key].Encoded? ==> store[key].session.id !in wanted
  }

  /** A written session changes its own two keys and no other. */
  lemma WrittenAt(prefix: string, store: Store, s: Session, k: string)
    requires !("id:" <= s.token)
    ensures IdPrefix(prefix) <= k ==> (k in Written(prefix, store, s) <==> k in store || IdOfKey(prefix, k) == s.id)
    ensures !(IdPrefix(prefix) <= k) ==>
      (k in Written(prefix, store, s) <==> k in store || k == TokenKey(prefix, s.token))
    ensures !(IdPrefix(prefix) <= k) && k in Written(prefix, store, s) ==>
      Written(prefix, store, s)[k] == if k == TokenKey(prefix, s.token) then Encoded(s) else store[k]
  {
    TokenKeyIsNoIndexKey(prefix, s.token);
    IdKeyRoundTrip(prefix, s.id);
    if IdPrefix(prefix) <= k && IdOfKey(prefix, k) == s.id {
      assert k == IdKey(prefix, s.id);
    }
  }

  lemma CachedSession(prefix: string, tokenOf: string -> string, store: Store, key: string)
    requires StoreOk(prefix, tokenOf, store) && key in store && !(IdPrefix(prefix) <= key)
    ensures store[key].Encoded?
    ensures var s := store[key].session;
      key == TokenKey(prefix, s.token) && s.token == tokenOf(s.id) && !("id:" <= s.token)
  {
    assert EntryOk(prefix, tokenOf, key, store[key]);
  }

  lemma AgreesAfter(prefix: string, tokenOf: string -> string, before: Store, now: Store, cancelled: set<string>, key: string, k: string)
    requires StoreOk(prefix, tokenOf, before) && StoreOk(prefix, tokenOf, now)
    requires AgreesAt(prefix, before, now, cancelled, key) && AgreesAt(prefix, before, now, cancelled, k)
    requires key in now && !(IdPrefix(prefix) <= key) && now[key].Encoded?
    ensures var s := now[key].session;
      AgreesAt(prefix, before, Written(prefix, now, Cancel(s)), cancelled + {s.id}, k)
  {
    var s := now[key].session;
    CachedSession(prefix, tokenOf, now, key);
    CachedSession(prefix, tokenOf, before, key);
    WrittenAt(prefix, now, Cancel(s), k);
    if k in before && !(IdPrefix(prefix) <= k) {
      CachedSession(prefix, tokenOf, before, k);
    }
  }

  /** Cancelling one more session. */
  lemma OneMoreCancelled(prefix: string, tokenOf: string -> string, before: Store, now: Store, cancelled: set<string>, key: string)
    requires StoreOk(prefix, tokenOf, before) && StoreOk(prefix, tokenOf, now)
    requires CancelledIn(prefix, tokenOf, before, now, cancelled)
    requires key in now && !(IdPrefix(prefix) <= key)
    ensures now[key].Encoded? && key in before && before[key].Encoded? && before[key].session.id == now[key].session.id
    ensures var s := now[key].session;
      && StoreOk(prefix, tokenOf, Written(prefix, now, Cancel(s)))
      && CancelledIn(prefix, tokenOf, before, Written(prefix, now, Cancel(s)), cancelled + {s.id})
  {
    assert AgreesAt(prefix, before, now, cancelled, key);
    CachedSession(prefix, tokenOf, now, key);
    CachedSession(prefix, tokenOf, before, key);
    var s := now[key].session;
    WrittenIsOk(prefix, tokenOf, now, Cancel(s));
    forall k
      ensures AgreesAt(prefix, before, Written(prefix, now, Cancel(s)), cancelled + {s.id}, k)
    {
      AgreesAfter(prefix, tokenOf, before, now, cancelled, key, k);
    }
  }

  lemma SearchedStays(prefix: string, tokenOf: string -> string, store: Store, key: string, keys: seq<string>, wanted: set<string>)
    requires StoreOk(prefix, tokenOf, store) && Searched(store, keys, wanted)
    requires key in store && store[key].Encoded? && !(IdPrefix(prefix) <= key)
    ensures Searched(Written(prefix, store, Cancel(store[key].session)), keys, wanted)
  {
    assert EntryOk(prefix, tokenOf, key, store[key]);
  }

  /** When the scan has ended, every wanted session that is cached was found. */
  lemma DoneMeaning(prefix: string, tokenOf: string -> string, ids: seq<string>, before: Store, now: Store,
                    done: set<string>, remaining: set<string>, scanned: seq<string>)
    requires StoreOk(prefix, tokenOf, before) && CancelledIn(prefix, tokenOf, before, now, done)
    requires done !! remaining && done + remaining == set id | id in ids
    requires remaining != {} ==> Searched(now, scanned, remaining)
    requires forall key :: key in before && !(IdPrefix(prefix) <= key) ==> key in scanned
    ensures done == set id | id in ids && TokenKey(prefix, tokenOf(id)) in before
  {
    forall id | id in ids && TokenKey(prefix, tokenOf(id)) in before
      ensures id in done
    {
      var key := TokenKey(prefix, tokenOf(id));
      TokenKeyIsNoIndexKey(prefix, tokenOf(id));
      assert EntryOk(prefix, tokenOf, key, before[key]);
      TokenKeyIsInjective(prefix, tokenOf(id), before[key].session.token);
      assert before[key].session.id == id;
      assert AgreesAt(prefix, before, now, done, key);
      assert now[key].Encoded? && now[key].session.id == id;
      assert id in done + remaining;
    }
    forall id | id in done
      ensures id in ids
    {
      assert id in done + remaining;
    }
  }

  /** The outcome, session by session: whatever is cached and listed is cancelled
      without expiry, however it was found, and everything else is as before. */
  lemma ListedSessionsExactly(prefix: string, tokenOf: string -> string, ids: seq<string>, before: Store, now: Store,
                              done: set<string>, key: string)
    requires StoreOk(prefix, tokenOf, before) && CancelledIn(prefix, tokenOf, before, now, done)
    requires done == set id | id in ids && TokenKey(prefix, tokenOf(id)) in before
    requires !(IdPrefix(prefix) <= key)
    ensures key in now <==> key in before
    ensures key in before ==>
      (before[key].Encoded?
       && now[key] == Encoded(
         if before[key].session.id in ids then before[key].session.(status := Cancelled, expiresAt := None)
         else before[key].session))
  {
    assert AgreesAt(prefix, before, now, done, key);
    if key in before {
      CachedSession(prefix, tokenOf, before, key);
    }
  }

  function Flatten(batches: seq<seq<string>>): seq<string> {
    if batches == [] then [] else Flatten(batches[..|batches| - 1]) + batches[|batches| - 1]
  }

  class RedisSessionCache {
    const prefix: string
    ghost const tokenOf: string -> string
    var store: Store

    ghost predicate Valid()
      reads this
    {
      StoreOk(prefix, tokenOf, store)
    }

    constructor (prefix: string, ghost tokenOf: string -> string)
      requires TokensOk(tokenOf)
      ensures Valid() && this.prefix == prefix && this.tokenOf == tokenOf && store == map[]
    {
      this.prefix := prefix;
      this.tokenOf := tokenOf;
      store := map[];
    }

    method WriteSession(s: Session)
      requires Valid() && s.token == tokenOf(s.id)
      modifies this`store
      ensures Valid() && store == Written(prefix, old(store), s)
    {
      WrittenIsOk(prefix, tokenOf, store, s);
      store := store[TokenKey(prefix, s.token) := Encoded(s)];
      store := store[IdKey(prefix, s.id) := Pointer(s.token)];
    }

    /** A token's own session is found; a token that starts with `id:` leads to an
        index entry instead, which is no encoded session. */
    method Get(token: string) returns (found: Lookup)
      requires Valid()
      ensures found.Hit? <==> TokenKey(prefix, token) in store && !("id:" <= token)
      ensures found.Hit? ==> store[TokenKey(prefix, token)] == Encoded(found.session) && found.session.token == token
      ensures found.Undecodable? <==> TokenKey(prefix, token) in store && "id:" <= token && tokenOf(token[3..]) != ""
    {
      var key := TokenKey(prefix, token);
      if key !in store {
        return Miss;
      }
      TokenKeyIsNoIndexKey(prefix, token);
      assert EntryOk(prefix, tokenOf, key, store[key]);
      match store[key]
      case Encoded(session) =>
        TokenKeyIsInjective(prefix, token, session.token);
        found := Hit(session);
      case Pointer(text) =>
        assert IdOfKey(prefix, key) == token[3..];
        found := if text == "" then Miss else Undecodable;
    }

    /** Only the session goes: its index entry dangles from here on. */
    method Delete(token: string)
      requires Valid()
      modifies this`store
      ensures Valid() && store == old(store) - {TokenKey(prefix, token)}
    {
      store := store - {TokenKey(prefix, token)};
    }

    /** The loop over the ids, through the index. */
    method CancelThroughIndex(ids: seq<string>) returns (ghost done: set<string>, remaining: set<string>, decoded: bool)
      requires Valid()
      modifies this`store
      ensures Valid() && decoded
      ensures CancelledIn(prefix, tokenOf, old(store), store, done)
      ensures done !! remaining && done + remaining == (set id | id in ids)
    {
      remaining := set id | id in ids;
      ghost var all := remaining;
      done, decoded := {}, true;
      for n := 0 to |ids|
        invariant Valid() && decoded
        invariant CancelledIn(prefix, tokenOf, old(store), store, done)
        invariant done !! remaining && done + remaining == all
      {
        var id := ids[n];
        if IdKey(prefix, id) !in store {
          continue;
        }
        IndexFindsTheSession(prefix, tokenOf, store, id);
        var token := store[IdKey(prefix, id)].token;
        if token == "" {
          continue;
        }
        var key := TokenKey(prefix, token);
        if key !in store {
          continue;
        }
        if !store[key].Encoded? {
          decoded := false;
          return;
        }
        TokenKeyIsNoIndexKey(prefix, token);
        OneMoreCancelled(prefix, tokenOf, old(store), store, done, key);
        assert EntryOk(prefix, tokenOf, key, store[key]);
        WriteSession(Cancel(store[key].session));
        remaining := remaining - {id};
        done := done + {id};
      }
    }

    /** One key that the scan returns. */
    method CancelUnderKey(key: string, wanted: set<string>, ghost before: Store, ghost already: set<string>, ghost earlier: seq<string>)
      returns (ghost done: set<string>, remaining: set<string>, decoded: bool)
      requires Valid() && StoreOk(prefix, tokenOf, before)
      requires CancelledIn(prefix, tokenOf, before, store, already) && already !! wanted && Searched(store, earlier, wanted)
      modifies this`store
      ensures Valid() && decoded
      ensures CancelledIn(prefix, tokenOf, before, store, done) && done !! remaining && done + remaining == already + wanted
      ensures Searched(store, earlier + [key], remaining)
    {
      done, remaining, decoded := already, wanted, true;
      if IdPrefix(prefix) <= key {
        assert key in store ==> EntryOk(prefix, tokenOf, key, store[key]);
        return;
      }
      if key !in store {
        return;
      }
      CachedSession(prefix, tokenOf, store, key);
      if !store[key].Encoded? {
        decoded := false;
        return;
      }
      var session := store[key].session;
      if session.id !in remaining {
        return;
      }
      OneMoreCancelled(prefix, tokenOf, before, store, done, key);
      SearchedStays(prefix, tokenOf, store, key, earlier, wanted);
      WriteSession(Cancel(session));
      WrittenAt(prefix, old(store), Cancel(session), key);
      remaining := remaining - {session.id};
      done := done + {session.id};
    }

    /** One batch of the scan. */
    method CancelInBatch(keys: seq<string>, wanted: set<string>, ghost before: Store, ghost already: set<string>, ghost earlier: seq<string>)
      returns (ghost done: set<string>, remaining: set<string>, decoded: bool)
      requires Valid() && StoreOk(prefix, tokenOf, before)
      requires CancelledIn(prefix, tokenOf, before, store, already) && already !! wanted && Searched(store, earlier, wanted)
      modifies this`store
      ensures Valid() && decoded
      ensures CancelledIn(prefix, tokenOf, before, store, done) && done !! remaining && done + remaining == already + wanted
      ensures Searched(store, earlier + keys, remaining)
    {
      done, remaining, decoded := already, wanted, true;
      assert earlier + keys[..0] == earlier;
      for n := 0 to |keys|
        invariant Valid() && decoded
        invariant CancelledIn(prefix, tokenOf, before, store, done) && done !! remaining && done + remaining == already + wanted
        invariant Searched(store, earlier + keys[..n], remaining)
      {
        done, remaining, decoded := CancelUnderKey(keys[n], remaining, before, done, earlier + keys[..n]);
        assert earlier + keys[..n + 1] == earlier + keys[..n] + [keys[n]];
      }
      assert keys[..|keys|] == keys;
    }

    /** `scan` is whatever order, with whatever repetitions, the server returns the
        keys in; a scan returns every key that is there throughout. */
    method CancelByIds(ids: seq<string>, scan: seq<seq<string>>) returns (ghost done: set<string>, decoded: bool)
      requires Valid()
      requires forall key :: key in store && !(IdPrefix(prefix) <= key) ==> key in Flatten(scan)
      modifies this`store
      ensures Valid() && decoded
      ensures CancelledIn(prefix, tokenOf, old(store), store, done)
      ensures done == set id | id in ids && TokenKey(prefix, tokenOf(id)) in old(store)
    {
      ghost var before := store;
      var remaining;
      done, remaining, decoded := CancelThroughIndex(ids);
      if !decoded {
        return;
      }
      var n := 0;
      assert Searched(store, [], remaining);
      while n < |scan| && remaining != {}
        invariant n <= |scan|
        invariant Valid() && decoded
        invariant CancelledIn(prefix, tokenOf, before, store, done) && done !! remaining && done + remaining == set id | id in ids
        invariant Searched(store, Flatten(scan[..n]), remaining)
      {
        assert scan[..n + 1][..n] == scan[..n];
        done, remaining, decoded := CancelInBatch(scan[n], remaining, before, done, Flatten(scan[..n]));
        n := n + 1;
      }
      assert remaining != {} ==> scan[..n] == scan;
      DoneMeaning(prefix, tokenOf, ids, before, store, done, remaining, Flatten(scan));
    }
  }
}
