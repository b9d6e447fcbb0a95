/** `src/auth/login-attempts.service.ts`: the lock-out counters, kept in Redis while it is reachable and in process
    memory otherwise. */
module LoginAttempts {
  import opened Wrappers
  import opened Redis

  const MS_PER_SECOND := 1000
  const PRUNE_ABOVE := 5000

  /** `loginLockoutLimits()`: every limit is a positive whole number, whatever the environment says. */
  datatype LimitValues = LimitValues(perAccount: int, perIp: int, windowSeconds: int)

  type Limits = l: LimitValues | l.perAccount > 0 && l.perIp > 0 && l.windowSeconds > 0
    witness LimitValues(10, 20, 900)

  function Window(limits: Limits): (window: int)
    ensures window > 0
  {
    limits.windowSeconds * MS_PER_SECOND
  }

  function LimitFor(limits: Limits, key: Key): int {
    if key.LoginIp? then limits.perIp else limits.perAccount
  }

  datatype MemoryEntry = MemoryEntry(count: nat, resetAt: int)

  type Memory = map<Key, MemoryEntry>

  /** Both stores; the process memory is always reachable, Redis is not. */
  datatype Stores = Stores(memory: Memory, redis: Store)

  datatype LockState = LockState(locked: bool, retryAfter: int)

  // ---------------------------------------------------------------------------------------------------------------
  // What each operation leaves behind
  // ---------------------------------------------------------------------------------------------------------------

  predicate Running(memory: Memory, key: Key, now: int) { key in memory && memory[key].resetAt > now }

  /** `readMemory` deletes an entry whose window is over. */
  function SweptOnRead(memory: Memory, key: Key, now: int): Memory {
    if Running(memory, key, now) then memory else memory - {key}
  }

  function MemoryCounter(memory: Memory, key: Key, now: int): Option<CounterState> {
    if Running(memory, key, now) then Some(CounterState(memory[key].count, memory[key].resetAt - now)) else None
  }

  function Counted(memory: Memory, key: Key, window: int, now: int): Memory {
    memory[key := if Running(memory, key, now) then MemoryEntry(memory[key].count + 1, memory[key].resetAt)
    else MemoryEntry(1, now + window)]
  }

  function Pruned(memory: Memory, now: int): Memory {
    map key | key in memory && memory[key].resetAt > now :: memory[key]
  }

  function CountedAndPruned(memory: Memory, key: Key, window: int, now: int): Memory {
    var counted := Counted(memory, key, window, now);
    if |counted| > PRUNE_ABOVE then Pruned(counted, now) else counted
  }

  /** Whichever store saw more failures wins; Redis on a tie. */
  function Worse(redis: Option<CounterState>, memory: Option<CounterState>): Option<CounterState> {
    if redis.None? then memory
    else if memory.None? || redis.value.count >= memory.value.count then redis
    else memory
  }

  function StoresAfterRead(s: Stores, key: Key, window: int, now: int, reached: bool): Stores {
    Stores(SweptOnRead(s.memory, key, now), if reached then Repaired(s.redis, key, window, now) else s.redis)
  }

  function ReadResult(s: Stores, key: Key, window: int, now: int, reached: bool): Option<CounterState> {
    Worse(if reached then CounterOf(s.redis, key, window, now) else None, MemoryCounter(s.memory, key, now))
  }

  function StoresAfterFailure(s: Stores, key: Key, window: int, now: int, link: Link): Stores {
    Stores(if link == Reached then s.memory else CountedAndPruned(s.memory, key, window, now),
           Incremented(s.redis, key, window, now, link))
  }

  /** `lockState` reads the account first and the client second. */
  function StoresAfterLockState(
    s: Stores, account: Key, client: Option<Key>, limits: Limits, now: int, accountRead: bool, clientRead: bool): Stores
  {
    var read := StoresAfterRead(s, account, Window(limits), now, accountRead);
    if client.Some? then StoresAfterRead(read, client.value, Window(limits), now, clientRead) else read
  }

  predicate HasCounted(counter: Option<CounterState>, limit: int) { counter.Some? && counter.value.count >= limit }

  predicate KeyLocked(s: Stores, key: Key, limits: Limits, now: int, reached: bool) {
    var counter := ReadResult(s, key, Window(limits), now, reached);
    counter.Some? && counter.value.count >= LimitFor(limits, key)
  }

  function StoresAfterRecordFailure(
    s: Stores, account: Key, client: Option<Key>, limits: Limits, now: int, accountLink: Link, clientLink: Link): Stores
  {
    var counted := StoresAfterFailure(s, account, Window(limits), now, accountLink);
    if client.Some? then StoresAfterFailure(counted, client.value, Window(limits), now, clientLink) else counted
  }

  function StoresAfterSuccess(s: Stores, account: Key, reached: bool): Stores {
    Stores(s.memory - {account}, if reached then s.redis - {account} else s.redis)
  }

  // ---------------------------------------------------------------------------------------------------------------
  // The service
  // ---------------------------------------------------------------------------------------------------------------

  class LoginAttemptsService {
    const redis: RedisService
    var memory: Memory

    constructor (redis: RedisService)
      ensures this.redis == redis && memory == map[]
    {
      this.redis := redis;
      memory := map[];
    }

    function Snapshot(): Stores
      reads this, redis
    {
      Stores(memory, redis.store)
    }

    method ReadMemory(key: Key, now: int) returns (counter: Option<CounterState>)
      modifies this
      ensures memory == SweptOnRead(old(memory), key, now)
      ensures memory
           == if key in old(memory) && old(memory)[key].resetAt <= now then old(memory) - {key} else old(memory)
      ensures counter == MemoryCounter(old(memory), key, now)
    {
      if key !in memory {
        return None;
      }
      var left := memory[key].resetAt - now;
      if left <= 0 {
        memory := memory - {key};
        return None;
      }
      counter := Some(CounterState(memory[key].count, left));
    }

    method Read(key: Key, limits: Limits, now: int, reached: bool) returns (counter: Option<CounterState>)
      modifies this, redis
      ensures Snapshot() == StoresAfterRead(old(Snapshot()), key, Window(limits), now, reached)
      ensures counter == ReadResult(old(Snapshot()), key, Window(limits), now, reached)
    {
      var fromRedis := redis.Counter(key, Window(limits), now, reached);
      var fromMemory := ReadMemory(key, now);
      counter := fromRedis;
      if fromRedis.None? || (fromMemory.Some? && fromMemory.value.count > fromRedis.value.count) {
        counter := fromMemory;
      }
    }

    method LockStateOf(
      account: Key, client: Option<Key>, limits: Limits, now: int, accountRead: bool, clientRead: bool)
      returns (lock: LockState)
      requires account.LoginAccount? && (client.Some? ==> client.value.LoginIp?)
      modifies this, redis
      ensures Snapshot() == StoresAfterLockState(old(Snapshot()), account, client, limits, now, accountRead, clientRead)
      ensures lock.locked
         <==> HasCounted(ReadResult(old(Snapshot()), account, Window(limits), now, accountRead), limits.perAccount)
              || (client.Some? && HasCounted(ReadResult(old(Snapshot()), client.value, Window(limits), now, clientRead),
                                             limits.perIp))
      ensures lock.locked
         <==> KeyLocked(old(Snapshot()), account, limits, now, accountRead)
              || (client.Some? && KeyLocked(old(Snapshot()), client.value, limits, now, clientRead))
      ensures lock.locked
              ==> var byAccount := KeyLocked(old(Snapshot()), account, limits, now, accountRead);
                  var key := if byAccount then account else client.value;
                  var reached := if byAccount then accountRead else clientRead;
                  lock.retryAfter == ReadResult(old(Snapshot()), key, Window(limits), now, reached).value.left
      ensures !lock.locked ==> lock.retryAfter == 0
    {
      var accountCounter := Read(account, limits, now, accountRead);
      var clientCounter := None;
      if client.Some? {
        clientCounter := Read(client.value, limits, now, clientRead);
      }
      if accountCounter.Some? && accountCounter.value.count >= limits.perAccount {
        return LockState(true, accountCounter.value.left);
      }
      if clientCounter.Some? && clientCounter.value.count >= limits.perIp {
        return LockState(true, clientCounter.value.left);
      }
      lock := LockState(false, 0);
    }

    method Increment(key: Key, limits: Limits, now: int, link: Link)
      modifies this, redis
      ensures Snapshot() == StoresAfterFailure(old(Snapshot()), key, Window(limits), now, link)
    {
      var counted := redis.IncrementWithTtl(key, Window(limits), now, link);
      if counted.Some? {
        return;
      }
      if key in memory && memory[key].resetAt > now {
        memory := memory[key := MemoryEntry(memory[key].count + 1, memory[key].resetAt)];
      } else {
        memory := memory[key := MemoryEntry(1, now + Window(limits))];
      }
      if |memory| > PRUNE_ABOVE {
        Prune(now);
      }
    }

    method Prune(now: int)
      modifies this
      ensures memory == Pruned(old(memory), now)
      ensures forall key :: key in memory <==> key in old(memory) && now < old(memory)[key].resetAt
      ensures forall key | key in memory :: memory[key] == old(memory)[key]
    {
      var keys := memory.Keys;
      while keys != {}
        invariant keys <= old(memory).Keys
        invariant memory == map key | key in old(memory) && (key in keys || old(memory)[key].resetAt > now) ::
                              old(memory)[key]
        decreases keys
      {
        var key :| key in keys;
        if memory[key].resetAt <= now {
          memory := memory - {key};
        }
        keys := keys - {key};
      }
    }

    method RecordFailure(
      account: Key, client: Option<Key>, limits: Limits, now: int, accountLink: Link, clientLink: Link)
      modifies this, redis
      ensures Snapshot()
           == StoresAfterRecordFailure(old(Snapshot()), account, client, limits, now, accountLink, clientLink)
    {
      Increment(account, limits, now, accountLink);
      if client.Some? {
        Increment(client.value, limits, now, clientLink);
      }
    }

    method RecordSuccess(account: Key, reached: bool)
      modifies this, redis
      ensures Snapshot() == StoresAfterSuccess(old(Snapshot()), account, reached)
    {
      memory := memory - {account};
      redis.Del(account, reached);
    }
  }
}
