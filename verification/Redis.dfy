/** `src/redis/redis.service.ts`: a key-value store with expiry, reached over a connection that may fail at any
    command. */
module Redis {
  import opened Wrappers
  import opened SessionData

  /** The keys the callers build; each kind has its own textual prefix, so different values never share a key. */
  datatype Key =
    | SessionLive(owner: Principal, sid: Family)
    | LoginAccount(emailHash: nat)
    | LoginIp(ip: nat)

  /** A stored value and the instant it expires, if it was given one. */
  datatype Entry = Entry(value: nat, expiresAt: Option<int>)
  {
    predicate Present(now: int) { expiresAt.Some? ==> expiresAt.value > now }
  }

  type Store = map<Key, Entry>

  predicate Holds(store: Store, key: Key, now: int) { key in store && store[key].Present(now) }

  /** A counter as the callers see it: its value and the milliseconds left in its window. */
  datatype CounterState = CounterState(count: nat, left: int)

  /** How far a counting command got: all the way, nowhere, cut off after INCR and before the expiry was set, or all
      the way with its answer lost. */
  datatype Link = Reached | Unreached | CutOff | AnswerLost

  function SetWithTtl(store: Store, key: Key, value: nat, ttl: int, now: int): Store {
    store[key := Entry(value, Some(now + ttl))]
  }

  /** INCR starts an absent (or expired) key at 1 without an expiry and keeps the expiry of a present one. */
  function Incr(store: Store, key: Key, now: int): Store {
    store[key := if Holds(store, key, now) then Entry(store[key].value + 1, store[key].expiresAt) else Entry(1, None)]
  }

  /** EXPIRE, applied only where the expiry is missing. */
  function ExpireIfMissing(store: Store, key: Key, window: int, now: int): Store
    requires key in store
  {
    if store[key].expiresAt.None? then store[key := Entry(store[key].value, Some(now + window))] else store
  }

  function Incremented(store: Store, key: Key, window: int, now: int, link: Link): Store {
    match link
    case Unreached => store
    case CutOff => Incr(store, key, now)
    case Reached | AnswerLost => ExpireIfMissing(Incr(store, key, now), key, window, now)
  }

  /** The read that repairs a counter left without expiry. */
  function Repaired(store: Store, key: Key, window: int, now: int): Store {
    if Holds(store, key, now) then ExpireIfMissing(store, key, window, now) else store
  }

  function CounterOf(store: Store, key: Key, window: int, now: int): Option<CounterState> {
    if !Holds(store, key, now) then None
    else
      Some(CounterState(store[key].value,
                        if store[key].expiresAt.Some? then store[key].expiresAt.value - now else window))
  }

  class RedisService {
    var store: Store

    constructor ()
      ensures store == map[]
    {
      store := map[];
    }

    /** A miss and a failure look the same to the caller. */
    method Get(key: Key, now: int, reached: bool) returns (value: Option<nat>)
      ensures value == if reached && Holds(store, key, now) then Some(store[key].value) else None
    {
      value := None;
      if reached {
        if key in store && store[key].Present(now) {
          value := Some(store[key].value);
        }
      }
    }

    method Set(key: Key, value: nat, ttl: int, now: int, reached: bool)
      modifies this
      ensures store == if reached then SetWithTtl(old(store), key, value, ttl, now) else old(store)
    {
      if reached {
        store := store[key := Entry(value, Some(now + ttl))];
      }
    }

    method Del(key: Key, reached: bool)
      modifies this
      ensures store == if reached then old(store) - {key} else old(store)
    {
      if reached {
        store := store - {key};
      }
    }

    method IncrementWithTtl(key: Key, window: int, now: int, link: Link) returns (counter: Option<CounterState>)
      requires window > 0
      modifies this
      ensures store == Incremented(old(store), key, window, now, link)
      ensures counter == if link == Reached then CounterOf(store, key, window, now) else None
    {
      if link == Unreached {
        return None;
      }
      var count := 1;
      var expiresAt := None;
      if key in store && store[key].Present(now) {
        count := store[key].value + 1;
        expiresAt := store[key].expiresAt;
      }
      store := store[key := Entry(count, expiresAt)];
      if link == CutOff {
        return None;
      }
      var left := window;
      if expiresAt.None? {
        store := store[key := Entry(count, Some(now + window))];
      } else {
        left := expiresAt.value - now;
      }
      counter := if link == AnswerLost then None else Some(CounterState(count, left));
    }

    method Counter(key: Key, window: int, now: int, reached: bool) returns (counter: Option<CounterState>)
      modifies this
      ensures store == if reached then Repaired(old(store), key, window, now) else old(store)
      ensures counter == if reached then CounterOf(old(store), key, window, now) else None
    {
      if !reached {
        return None;
      }
      if key !in store || !store[key].Present(now) {
        return None;
      }
      var count, expiresAt := store[key].value, store[key].expiresAt;
      if expiresAt.None? {
        store := store[key := Entry(count, Some(now + window))];
        return Some(CounterState(count, window));
      }
      counter := Some(CounterState(count, expiresAt.value - now));
    }
  }
}
