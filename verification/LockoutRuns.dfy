/** Runs of sign-in attempts against the lock-out, and what one attempt does to one counter. */
module LockoutRuns {
  import opened Wrappers
  import opened Redis
  import opened LoginAttempts

  /** What the password check says: `Wrong` is what gets counted, which takes in an unknown account and a staff user
      without a role; the right password to an inactive staff account is refused without being counted or forgiven. */
  datatype Password = Right | Wrong | RightButInactive

  /** One sign-in (or current-password check): the lock is asked first, then the password decides. The last five
      fields say how Redis behaved for the two reads, the two counts and the delete. */
  datatype Attempt = Attempt(
    email: nat, ip: Option<nat>, password: Password, now: int,
    accountRead: bool, clientRead: bool, accountLink: Link, clientLink: Link, forgiven: bool)
  {
    function Account(): Key { LoginAccount(email) }

    function Client(): Option<Key> { if ip.Some? then Some(LoginIp(ip.value)) else None }

    predicate Touches(key: Key) { key == Account() || Some(key) == Client() }

    predicate Reads(key: Key) { if key.LoginIp? then clientRead else accountRead }

    function LinkFor(key: Key): Link { if key.LoginIp? then clientLink else accountLink }
  }

  datatype Kind = InMemory | InRedis

  const EMPTY := Stores(map[], map[])

  predicate Refused(s: Stores, limits: Limits, a: Attempt) {
    || KeyLocked(s, a.Account(), limits, a.now, a.accountRead)
    || (a.Client().Some? && KeyLocked(s, a.Client().value, limits, a.now, a.clientRead))
  }

  function AfterReads(s: Stores, limits: Limits, a: Attempt): Stores {
    StoresAfterLockState(s, a.Account(), a.Client(), limits, a.now, a.accountRead, a.clientRead)
  }

  function Handle(s: Stores, limits: Limits, a: Attempt): Stores {
    var read := AfterReads(s, limits, a);
    if Refused(s, limits, a) then read
    else if a.password.Right? then StoresAfterSuccess(read, a.Account(), a.forgiven)
    else if a.password.RightButInactive? then read
    else StoresAfterRecordFailure(read, a.Account(), a.Client(), limits, a.now, a.accountLink, a.clientLink)
  }

  function HandleAll(s: Stores, limits: Limits, attempts: seq<Attempt>): Stores {
    if attempts == [] then s
    else Handle(HandleAll(s, limits, attempts[..|attempts| - 1]), limits, attempts[|attempts| - 1])
  }

  /** Which store counts a failure: Redis when it was reached, memory when it did not answer, both when it was
      reached and did not answer. */
  predicate GoesTo(kind: Kind, link: Link) { if kind.InMemory? then !link.Reached? else !link.Unreached? }

  /** Whether the attempt was let through, failed, and was counted for `key` in that store. */
  predicate CountedIn(kind: Kind, s: Stores, limits: Limits, a: Attempt, key: Key) {
    && !Refused(s, limits, a) && a.password.Wrong? && a.Touches(key)
    && GoesTo(kind, a.LinkFor(key))
  }

  /** The instants of the failures admitted for `key` and counted in that store, in order. */
  function AdmittedTimes(kind: Kind, s: Stores, limits: Limits, attempts: seq<Attempt>, key: Key): seq<int> {
    if attempts == [] then []
    else
      var before, last := attempts[..|attempts| - 1], attempts[|attempts| - 1];
      AdmittedTimes(kind, s, limits, before, key)
      + if CountedIn(kind, HandleAll(s, limits, before), limits, last, key) then [last.now] else []
  }

  predicate InOrder(attempts: seq<Attempt>) {
    forall i, j | 0 <= i < j < |attempts| :: attempts[i].now <= attempts[j].now
  }

  // ---------------------------------------------------------------------------------------------------------------
  // One store, one key: its running window
  // ---------------------------------------------------------------------------------------------------------------

  /** The running window of a key in one store: how much it counted and when it ends (never, if the expiry was lost). */
  datatype Open = Open(count: nat, end: Option<int>)

  function MemoryWindow(m: Memory, key: Key, now: int): Option<Open> {
    if Running(m, key, now) then Some(Open(m[key].count, Some(m[key].resetAt))) else None
  }

  function RedisWindow(store: Store, key: Key, now: int): Option<Open> {
    if Holds(store, key, now) then Some(Open(store[key].value, store[key].expiresAt)) else None
  }

  function OpenWindow(kind: Kind, s: Stores, key: Key, now: int): Option<Open> {
    if kind.InMemory? then MemoryWindow(s.memory, key, now) else RedisWindow(s.redis, key, now)
  }

  /** The same window at a later instant: gone once its end has come. */
  function Lapsed(open: Option<Open>, later: int): Option<Open> {
    if open.Some? && open.value.end.Some? && open.value.end.value <= later then None else open
  }

  lemma WindowLapses(kind: Kind, s: Stores, key: Key, now: int, later: int)
    requires now <= later
    ensures OpenWindow(kind, s, key, later) == Lapsed(OpenWindow(kind, s, key, now), later)
  {
  }

  /** What a read may do to a running window: nothing, or give it the end it had lost. */
  predicate SameWindow(before: Option<Open>, after: Option<Open>, window: int, now: int) {
    || after == before
    || (before.Some? && before.value.end.None? && after == Some(Open(before.value.count, Some(now + window))))
  }

  /** What counting one failure does: start a window, or add one to the running one and keep its end. */
  predicate OneMore(before: Option<Open>, after: Option<Open>, window: int, now: int) {
    && after.Some?
    && (if before.Some? && before.value.end.Some? then after.value.end == before.value.end
        else after.value.end.Some? ==> after.value.end == Some(now + window))
    && after.value.count == if before.Some? then before.value.count + 1 else 1
  }

  lemma ReadKeepsWindow(kind: Kind, s: Stores, read: Key, key: Key, window: int, now: int, reached: bool)
    requires window > 0
    ensures SameWindow(OpenWindow(kind, s, key, now),
                       OpenWindow(kind, StoresAfterRead(s, read, window, now, reached), key, now), window, now)
  {
  }

  lemma MemoryCountsOnce(m: Memory, counted: Key, key: Key, window: int, now: int)
    requires window > 0
    ensures MemoryWindow(CountedAndPruned(m, counted, window, now), key, now)
         == if counted == key && MemoryWindow(m, key, now).Some?
            then Some(Open(m[key].count + 1, Some(m[key].resetAt)))
            else if counted == key then Some(Open(1, Some(now + window)))
              else MemoryWindow(m, key, now)
  {
  }

  lemma RedisCountsOnce(store: Store, counted: Key, key: Key, window: int, now: int, link: Link)
    requires window > 0 && !link.Unreached?
    ensures var before, after := RedisWindow(store, key, now),
                                 RedisWindow(Incremented(store, counted, window, now, link), key, now);
            if counted == key then OneMore(before, after, window, now) else after == before
  {
  }

  lemma FailureCountsOnce(kind: Kind, s: Stores, counted: Key, key: Key, window: int, now: int, link: Link)
    requires window > 0
    ensures var after := OpenWindow(kind, StoresAfterFailure(s, counted, window, now, link), key, now);
            var before := OpenWindow(kind, s, key, now);
            if counted == key && GoesTo(kind, link) then OneMore(before, after, window, now) else after == before
  {
    if kind.InMemory? {
      MemoryCountsOnce(s.memory, counted, key, window, now);
    } else if !link.Unreached? {
      RedisCountsOnce(s.redis, counted, key, window, now, link);
    }
  }

  lemma LockStateKeepsWindow(kind: Kind, s: Stores, limits: Limits, a: Attempt, key: Key)
    ensures SameWindow(
              OpenWindow(kind, s, key, a.now),
              OpenWindow(kind, AfterReads(s, limits, a), key, a.now),
              Window(limits), a.now)
  {
    var read := StoresAfterRead(s, a.Account(), Window(limits), a.now, a.accountRead);
    ReadKeepsWindow(kind, s, a.Account(), key, Window(limits), a.now, a.accountRead);
    if a.Client().Some? {
      ReadKeepsWindow(kind, read, a.Client().value, key, Window(limits), a.now, a.clientRead);
    }
  }

  lemma RecordFailureOnWindow(kind: Kind, s: Stores, limits: Limits, a: Attempt, key: Key)
    ensures var before := OpenWindow(kind, s, key, a.now);
            var s' := StoresAfterRecordFailure(s, a.Account(), a.Client(), limits, a.now, a.accountLink, a.clientLink);
            var after := OpenWindow(kind, s', key, a.now);
            if a.Touches(key) && GoesTo(kind, a.LinkFor(key)) then OneMore(before, after, Window(limits), a.now)
            else after == before
  {
    var counted := StoresAfterFailure(s, a.Account(), Window(limits), a.now, a.accountLink);
    FailureCountsOnce(kind, s, a.Account(), key, Window(limits), a.now, a.accountLink);
    if a.Client().Some? {
      FailureCountsOnce(kind, counted, a.Client().value, key, Window(limits), a.now, a.clientLink);
    }
  }

  /** The whole effect of one attempt on one window. */
  lemma AttemptOnWindow(kind: Kind, s: Stores, limits: Limits, a: Attempt, key: Key) returns (mid: Option<Open>)
    requires key.LoginAccount? && a.Touches(key) && a.password.Right? ==> Refused(s, limits, a)
    ensures SameWindow(OpenWindow(kind, s, key, a.now), mid, Window(limits), a.now)
    ensures var after := OpenWindow(kind, Handle(s, limits, a), key, a.now);
            if CountedIn(kind, s, limits, a, key) then OneMore(mid, after, Window(limits), a.now) else after == mid
  {
    var read := AfterReads(s, limits, a);
    mid := OpenWindow(kind, read, key, a.now);
    LockStateKeepsWindow(kind, s, limits, a, key);
    if !Refused(s, limits, a) {
      if a.password.Right? {
        ForgivingOthersOnWindow(kind, read, a.Account(), key, a.now, a.forgiven);
      } else if a.password.Wrong? {
        RecordFailureOnWindow(kind, read, limits, a, key);
      }
    }
  }

  lemma ForgivingOthersOnWindow(kind: Kind, s: Stores, account: Key, key: Key, now: int, forgiven: bool)
    requires key != account
    ensures OpenWindow(kind, StoresAfterSuccess(s, account, forgiven), key, now) == OpenWindow(kind, s, key, now)
  {
  }

  /** An attempt that reads the store is let through only below the limit. */
  lemma AdmittedBelowLimit(kind: Kind, s: Stores, limits: Limits, a: Attempt, key: Key)
    requires !Refused(s, limits, a) && a.Touches(key)
    requires kind.InRedis? ==> a.Reads(key)
    ensures var open := OpenWindow(kind, s, key, a.now); open.Some? ==> open.value.count < LimitFor(limits, key)
  {
  }

  /** The two stores back each other up: a subject is locked exactly when its running window is full in memory or, if
      it can be read, in Redis. */
  lemma LockedIffAWindowIsFull(s: Stores, key: Key, limits: Limits, now: int, reached: bool)
    ensures KeyLocked(s, key, limits, now, reached)
       <==> exists kind: Kind ::
              && (kind.InMemory? || reached)
              && OpenWindow(kind, s, key, now).Some?
              && OpenWindow(kind, s, key, now).value.count >= LimitFor(limits, key)
  {
    var memory, redis := OpenWindow(InMemory, s, key, now), OpenWindow(InRedis, s, key, now);
    assert MemoryCounter(s.memory, key, now).Some? <==> memory.Some?;
    assert CounterOf(s.redis, key, Window(limits), now).Some? <==> redis.Some?;
  }

  /** The key's running window in that store has counted this many failures or more. */
  predicate HasReached(kind: Kind, s: Stores, key: Key, now: int, count: int) {
    var open := OpenWindow(kind, s, key, now);
    open.Some? && open.value.count >= count
  }

  /** The window is that full in memory or, if it can be read, in Redis. */
  predicate FullWhereRead(s: Stores, key: Key, now: int, reached: bool, count: int) {
    HasReached(InMemory, s, key, now, count) || (reached && HasReached(InRedis, s, key, now, count))
  }

  lemma LockedIffFull(s: Stores, key: Key, limits: Limits, now: int, reached: bool)
    ensures KeyLocked(s, key, limits, now, reached) <==> FullWhereRead(s, key, now, reached, LimitFor(limits, key))
  {
    assert MemoryCounter(s.memory, key, now).Some? <==> OpenWindow(InMemory, s, key, now).Some?;
    assert CounterOf(s.redis, key, Window(limits), now).Some? <==> OpenWindow(InRedis, s, key, now).Some?;
  }

  /** An attempt is refused exactly when a window of its account that it can read has reached the account's limit, or
      one of its address the address's. */
  lemma RefusedIff(s: Stores, limits: Limits, a: Attempt)
    ensures Refused(s, limits, a)
       <==> FullWhereRead(s, LoginAccount(a.email), a.now, a.accountRead, limits.perAccount)
            || (a.ip.Some? && FullWhereRead(s, LoginIp(a.ip.value), a.now, a.clientRead, limits.perIp))
  {
    hide KeyLocked, FullWhereRead;
    LockedIffFull(s, LoginAccount(a.email), limits, a.now, a.accountRead);
    if a.ip.Some? {
      LockedIffFull(s, LoginIp(a.ip.value), limits, a.now, a.clientRead);
    }
  }

  /** What a locked caller's wait is read from: neither store has a running window, or the larger of the two counts with
      the time its own window has left, the one in Redis on a tie. */
  lemma ReadIsTheFuller(s: Stores, key: Key, limits: Limits, now: int, reached: bool)
    ensures var memory := OpenWindow(InMemory, s, key, now);
            var redis := if reached then OpenWindow(InRedis, s, key, now) else None;
            var read := ReadResult(s, key, Window(limits), now, reached);
            && (read.None? <==> memory.None? && redis.None?)
            && (redis.Some? && (memory.Some? ==> memory.value.count <= redis.value.count)
                ==> var end := redis.value.end;
                    var left := if end.Some? then end.value - now else limits.windowSeconds * 1000;
                    read == Some(CounterState(redis.value.count, left)))
            && (memory.Some? && (redis.Some? ==> redis.value.count < memory.value.count)
                ==> read == Some(CounterState(memory.value.count, memory.value.end.value - now)))
  {
  }

  /** One failure more in the running window, whose end stays, or the first of a new one. A count that ran to its end
      leaves an expiry. */
  predicate CountsUp(before: Option<Open>, after: Option<Open>, kind: Kind, now: int, limits: Limits, link: Link) {
    && after.Some? && after.value.count == (if before.Some? then before.value.count else 0) + 1
    && (before.Some? && before.value.end.Some? ==> after.value.end == before.value.end)
    && ((before.None? || before.value.end.None?) && after.value.end.Some?
        ==> after.value.end == Some(now + limits.windowSeconds * 1000))
    && (kind.InMemory? || link.Reached? || link.AnswerLost? ==> after.value.end.Some?)
  }

  /** A failure that is let through is counted for its account, and for its address if it has one, in each store its own
      command reached, and in memory where Redis gave no answer. */
  lemma AdmittedFailureCounts(s: Stores, limits: Limits, a: Attempt, kind: Kind)
    requires !Refused(s, limits, a) && a.password.Wrong?
    ensures (if kind.InMemory? then !a.accountLink.Reached? else !a.accountLink.Unreached?)
            ==> CountsUp(OpenWindow(kind, s, LoginAccount(a.email), a.now),
                         OpenWindow(kind, Handle(s, limits, a), LoginAccount(a.email), a.now),
                         kind, a.now, limits, a.accountLink)
    ensures a.ip.Some? && (if kind.InMemory? then !a.clientLink.Reached? else !a.clientLink.Unreached?)
            ==> CountsUp(OpenWindow(kind, s, LoginIp(a.ip.value), a.now),
                         OpenWindow(kind, Handle(s, limits, a), LoginIp(a.ip.value), a.now),
                         kind, a.now, limits, a.clientLink)
  {
    hide Handle, OpenWindow, Refused;
    if GoesTo(kind, a.accountLink) {
      FailureLeavesOneMore(s, limits, a, LoginAccount(a.email), kind);
    }
    if a.ip.Some? && GoesTo(kind, a.clientLink) {
      FailureLeavesOneMore(s, limits, a, LoginIp(a.ip.value), kind);
    }
  }

  lemma FailureLeavesOneMore(s: Stores, limits: Limits, a: Attempt, key: Key, kind: Kind)
    requires !Refused(s, limits, a) && a.password.Wrong? && a.Touches(key) && GoesTo(kind, a.LinkFor(key))
    ensures CountsUp(OpenWindow(kind, s, key, a.now), OpenWindow(kind, Handle(s, limits, a), key, a.now),
                     kind, a.now, limits, a.LinkFor(key))
  {
    hide Refused, OpenWindow, AfterReads, StoresAfterRecordFailure;
    var read := AfterReads(s, limits, a);
    LockStateKeepsWindow(kind, s, limits, a, key);
    RecordFailureOnWindow(kind, read, limits, a, key);
    if kind.InMemory? || a.LinkFor(key).Reached? || a.LinkFor(key).AnswerLost? {
      CompletedCountsExpire(kind, read, limits, a, key);
    }
  }

  /** Of two counts that ran to their end, the key's own leaves an expiry and the other does not take it away. */
  lemma CompletedCountsExpire(kind: Kind, s: Stores, limits: Limits, a: Attempt, key: Key)
    requires a.Touches(key) && GoesTo(kind, a.LinkFor(key))
    requires kind.InMemory? || a.LinkFor(key).Reached? || a.LinkFor(key).AnswerLost?
    ensures var s' := StoresAfterRecordFailure(s, a.Account(), a.Client(), limits, a.now, a.accountLink, a.clientLink);
            OpenWindow(kind, s', key, a.now).Some? && OpenWindow(kind, s', key, a.now).value.end.Some?
  {
    hide OpenWindow, StoresAfterFailure;
    CompletedCountExpires(kind, s, a.Account(), key, Window(limits), a.now, a.accountLink);
    if a.Client().Some? {
      var counted := StoresAfterFailure(s, a.Account(), Window(limits), a.now, a.accountLink);
      CompletedCountExpires(kind, counted, a.Client().value, key, Window(limits), a.now, a.clientLink);
    }
  }

  lemma CompletedCountExpires(kind: Kind, s: Stores, counted: Key, key: Key, window: int, now: int, link: Link)
    requires window > 0
    ensures var before, after := OpenWindow(kind, s, key, now),
                                 OpenWindow(kind, StoresAfterFailure(s, counted, window, now, link), key, now);
            && (counted == key && GoesTo(kind, link) && (kind.InMemory? || link.Reached? || link.AnswerLost?)
                ==> after.Some? && after.value.end.Some?)
            && (counted != key ==> after == before)
  {
    FailureCountsOnce(kind, s, counted, key, window, now, link);
    if kind.InMemory? {
      MemoryCountsOnce(s.memory, counted, key, window, now);
    }
  }

  lemma CorrectPasswordOnWindow(kind: Kind, s: Stores, limits: Limits, a: Attempt)
    requires a.password.Right?
    ensures var after := OpenWindow(kind, Handle(s, limits, a), a.Account(), a.now);
            after.None? || SameWindow(OpenWindow(kind, s, a.Account(), a.now), after, Window(limits), a.now)
  {
    LockStateKeepsWindow(kind, s, limits, a, a.Account());
    var read := AfterReads(s, limits, a);
    ForgivingOnWindow(kind, read, a.Account(), a.now, a.forgiven);
  }

  lemma ForgivingOnWindow(kind: Kind, s: Stores, account: Key, now: int, forgiven: bool)
    ensures var after := OpenWindow(kind, StoresAfterSuccess(s, account, forgiven), account, now);
            after.None? || after == OpenWindow(kind, s, account, now)
  {
  }

  /** A success let through clears the account's window in memory, and in Redis exactly when the delete arrives or
      nothing was there; the client's windows it leaves as the reads left them. */
  lemma SuccessForgivesTheAccountOnly(s: Stores, limits: Limits, a: Attempt, key: Key, kind: Kind)
    requires a.password.Right? && !Refused(s, limits, a) && a.Touches(key)
    ensures var before, after := OpenWindow(kind, s, key, a.now), OpenWindow(kind, Handle(s, limits, a), key, a.now);
            if key.LoginAccount? then after.None? <==> kind.InMemory? || a.forgiven || before.None?
            else SameWindow(before, after, Window(limits), a.now)
  {
    LockStateKeepsWindow(kind, s, limits, a, key);
  }

  lemma HandleLast(kind: Kind, s: Stores, limits: Limits, attempts: seq<Attempt>, a: Attempt, key: Key)
    ensures HandleAll(s, limits, attempts + [a]) == Handle(HandleAll(s, limits, attempts), limits, a)
    ensures AdmittedTimes(kind, s, limits, attempts + [a], key)
         == AdmittedTimes(kind, s, limits, attempts, key)
            + if CountedIn(kind, HandleAll(s, limits, attempts), limits, a, key) then [a.now] else []
  {
    assert (attempts + [a])[..|attempts|] == attempts;
  }
}
