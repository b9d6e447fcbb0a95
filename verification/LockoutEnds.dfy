/** Every lock ends, and until it does it holds. */
module LockoutEnds {
  import opened Wrappers
  import opened Redis
  import opened LoginAttempts
  import opened LockoutRuns

  /** A running window of the key ends, and no later than `by`. */
  predicate EndsBy(open: Option<Open>, deadline: int) {
    open.Some? ==> open.value.end.Some? && open.value.end.value <= deadline
  }

  /** No stored expiry lies further ahead than one window: nothing the service writes does. */
  ghost predicate NoFarExpiry(s: Stores, window: int, now: int) {
    && (forall key | key in s.memory :: s.memory[key].resetAt <= now + window)
    && (forall key | key in s.redis && s.redis[key].expiresAt.Some? :: s.redis[key].expiresAt.value <= now + window)
  }

  lemma ReadKeepsExpiriesNear(s: Stores, key: Key, window: int, now: int, reached: bool)
    requires window > 0 && NoFarExpiry(s, window, now)
    ensures NoFarExpiry(StoresAfterRead(s, key, window, now, reached), window, now)
  {
  }

  lemma CountingKeepsExpiriesNear(m: Memory, key: Key, window: int, now: int)
    requires window > 0 && forall k | k in m :: m[k].resetAt <= now + window
    ensures forall k | k in CountedAndPruned(m, key, window, now) ::
              CountedAndPruned(m, key, window, now)[k].resetAt <= now + window
  {
  }

  lemma FailureKeepsExpiriesNear(s: Stores, key: Key, window: int, now: int, link: Link)
    requires window > 0 && NoFarExpiry(s, window, now)
    ensures NoFarExpiry(StoresAfterFailure(s, key, window, now, link), window, now)
  {
    hide CountedAndPruned;
    CountingKeepsExpiriesNear(s.memory, key, window, now);
  }

  lemma NoFarExpiryIsKept(s: Stores, limits: Limits, a: Attempt)
    requires NoFarExpiry(s, Window(limits), a.now)
    ensures NoFarExpiry(Handle(s, limits, a), Window(limits), a.now)
  {
    hide StoresAfterRead, StoresAfterFailure, Refused;
    var window, now := Window(limits), a.now;
    ReadKeepsExpiriesNear(s, a.Account(), window, now, a.accountRead);
    var read := AfterReads(s, limits, a);
    if a.Client().Some? {
      ReadKeepsExpiriesNear(
        StoresAfterRead(s, a.Account(), window, now, a.accountRead), a.Client().value, window, now, a.clientRead);
    }
    FailureKeepsExpiriesNear(read, a.Account(), window, now, a.accountLink);
    if a.Client().Some? {
      FailureKeepsExpiriesNear(
        StoresAfterFailure(read, a.Account(), window, now, a.accountLink), a.Client().value, window, now, a.clientLink);
    }
  }

  /** In every run from empty stores no expiry ever lies further ahead than one window. */
  lemma {:induction false} ExpiriesStayNear(limits: Limits, attempts: seq<Attempt>, now: int)
    requires InOrder(attempts) && (attempts != [] ==> attempts[|attempts| - 1].now <= now)
    ensures NoFarExpiry(HandleAll(EMPTY, limits, attempts), Window(limits), now)
  {
    hide Handle;
    if attempts != [] {
      var before, last := attempts[..|attempts| - 1], attempts[|attempts| - 1];
      ExpiriesStayNear(limits, before, last.now);
      NoFarExpiryIsKept(HandleAll(EMPTY, limits, before), limits, last);
    }
  }

  /** One read that reaches Redis gives every window of the key an end within one window length, even a counter that
      lost its expiry between INCR and EXPIRE and would have locked its subject for good. */
  lemma ReachableReadBoundsTheLock(s: Stores, limits: Limits, a: Attempt, key: Key, kind: Kind)
    requires NoFarExpiry(s, Window(limits), a.now) && a.Reads(key) && a.Touches(key)
    ensures EndsBy(OpenWindow(kind, AfterReads(s, limits, a), key, a.now),
                   a.now + Window(limits))
  {
  }

  /** In every run the wait a locked caller is told is positive and at most one window. */
  lemma RetryAfterIsBounded(limits: Limits, attempts: seq<Attempt>, key: Key, now: int, reached: bool)
    requires InOrder(attempts) && (attempts != [] ==> attempts[|attempts| - 1].now <= now)
    requires KeyLocked(HandleAll(EMPTY, limits, attempts), key, limits, now, reached)
    ensures var told := ReadResult(HandleAll(EMPTY, limits, attempts), key, Window(limits), now, reached);
            0 < told.value.left <= limits.windowSeconds * 1000
  {
    hide HandleAll;
    ExpiriesStayNear(limits, attempts, now);
  }

  /** Attempts in order, none before `start`. */
  predicate Follows(later: seq<Attempt>, start: int) { InOrder(later) && (later != [] ==> start <= later[0].now) }

  lemma NoWindowNoLock(s: Stores, key: Key, limits: Limits, now: int, reached: bool)
    requires OpenWindow(InMemory, s, key, now).None? && OpenWindow(InRedis, s, key, now).None?
    ensures !KeyLocked(s, key, limits, now, reached)
  {
  }

  lemma LockedSubjectsWindow(
    kind: Kind, s: Stores, limits: Limits, first: Attempt, later: seq<Attempt>, key: Key, now: int)
    requires NoFarExpiry(s, Window(limits), first.now) && first.Reads(key) && first.Touches(key)
    requires Refused(s, limits, first)
    requires Follows(later, first.now)
    requires now >= first.now + Window(limits) && (later != [] ==> later[|later| - 1].now <= now)
    requires AdmittedTimes(kind, Handle(s, limits, first), limits, later, key) == []
    ensures OpenWindow(kind, HandleAll(Handle(s, limits, first), limits, later), key, now).None?
  {
    hide HandleAll, AdmittedTimes;
    var deadline := first.now + Window(limits);
    ReachableReadBoundsTheLock(s, limits, first, key, kind);
    UncountedRunKeepsDeadline(kind, Handle(s, limits, first), limits, later, key, first.now, now, deadline);
    WindowLapses(kind, HandleAll(Handle(s, limits, first), limits, later), key, now, now);
  }

  lemma DeadlineKept(
    before: Option<Open>, mid: Option<Open>, after: Option<Open>, counted: bool, deadline: int, window: int, now: int)
    requires EndsBy(before, deadline) && (mid.None? || SameWindow(before, mid, window, now))
    requires if counted then before.Some? && mid.Some? && OneMore(mid, after, window, now) else after == mid
    ensures EndsBy(after, deadline)
  {
  }

  /** Nothing extends a running window: not a read, not a further failure, in neither store. Only a failure counted when
      no window is running starts a new one. */
  lemma NothingExtendsAWindow(kind: Kind, s: Stores, limits: Limits, a: Attempt, key: Key, deadline: int)
    requires EndsBy(OpenWindow(kind, s, key, a.now), deadline)
    requires OpenWindow(kind, s, key, a.now).Some? || !CountedIn(kind, s, limits, a, key)
    ensures EndsBy(OpenWindow(kind, Handle(s, limits, a), key, a.now), deadline)
  {
    var before, after := OpenWindow(kind, s, key, a.now), OpenWindow(kind, Handle(s, limits, a), key, a.now);
    if key == a.Account() && a.password.Right? {
      CorrectPasswordOnWindow(kind, s, limits, a);
      DeadlineKept(before, after, after, false, deadline, Window(limits), a.now);
    } else {
      var mid := AttemptOnWindow(kind, s, limits, a, key);
      DeadlineKept(before, mid, after, CountedIn(kind, s, limits, a, key), deadline, Window(limits), a.now);
    }
  }

  lemma {:induction false} UncountedRunKeepsDeadline(
    kind: Kind, s: Stores, limits: Limits, later: seq<Attempt>, key: Key, start: int, now: int, deadline: int)
    requires EndsBy(OpenWindow(kind, s, key, start), deadline)
    requires Follows(later, start) && (later != [] ==> later[|later| - 1].now <= now) && start <= now
    requires AdmittedTimes(kind, s, limits, later, key) == []
    ensures EndsBy(OpenWindow(kind, HandleAll(s, limits, later), key, now), deadline)
    decreases |later|
  {
    if later == [] {
      WindowLapses(kind, s, key, start, now);
    } else {
      var before, last := later[..|later| - 1], later[|later| - 1];
      var mid := HandleAll(s, limits, before);
      assert AdmittedTimes(kind, s, limits, before, key) == [] && !CountedIn(kind, mid, limits, last, key);
      UncountedRunKeepsDeadline(kind, s, limits, before, key, start, last.now, deadline);
      NothingExtendsAWindow(kind, mid, limits, last, key, deadline);
      WindowLapses(kind, HandleAll(s, limits, later), key, last.now, now);
    }
  }

  /** Every lock ends. From any stores whose expiries are near, once one read has reached Redis at `first.now`, the
      lock is over one window length later in every continuation in which no failure of the subject was let through
      meanwhile. */
  lemma EveryLockEnds(s: Stores, limits: Limits, first: Attempt, later: seq<Attempt>, key: Key, now: int, reached: bool)
    requires NoFarExpiry(s, Window(limits), first.now) && first.Reads(key) && first.Touches(key)
    requires Refused(s, limits, first)
    requires Follows(later, first.now)
    requires now >= first.now + Window(limits) && (later != [] ==> later[|later| - 1].now <= now)
    requires forall kind :: AdmittedTimes(kind, Handle(s, limits, first), limits, later, key) == []
    ensures !KeyLocked(HandleAll(Handle(s, limits, first), limits, later), key, limits, now, reached)
  {
    LockedSubjectsWindow(InMemory, s, limits, first, later, key, now);
    LockedSubjectsWindow(InRedis, s, limits, first, later, key, now);
    NoWindowNoLock(HandleAll(Handle(s, limits, first), limits, later), key, limits, now, reached);
  }

  // ---------------------------------------------------------------------------------------------------------------
  // What a locked subject experiences
  // ---------------------------------------------------------------------------------------------------------------

  predicate IsFull(open: Option<Open>, limits: Limits, key: Key) {
    open.Some? && open.value.count >= LimitFor(limits, key)
  }

  /** The key's window in that store is full and runs until `end`. */
  predicate FullUntil(kind: Kind, s: Stores, limits: Limits, key: Key, now: int, end: int) {
    var open := OpenWindow(kind, s, key, now);
    IsFull(open, limits, key) && open.value.end == Some(end) && now < end
  }

  /** The attempt's read of the key reaches the store. */
  predicate Sees(kind: Kind, a: Attempt, key: Key) { a.Touches(key) && kind.InRedis? ==> a.Reads(key) }

  /** While a window is full, every attempt of its subject that can read it is refused, and it stays as it is. */
  lemma FullWindowRefuses(kind: Kind, s: Stores, limits: Limits, a: Attempt, key: Key, end: int, now: int)
    requires FullUntil(kind, s, limits, key, a.now, end) && Sees(kind, a, key) && a.now <= now < end
    ensures a.Touches(key) ==> Refused(s, limits, a)
    ensures forall other: Kind :: !CountedIn(other, s, limits, a, key)
    ensures FullUntil(kind, Handle(s, limits, a), limits, key, now, end)
  {
    if a.Touches(key) {
      LockedIffAWindowIsFull(s, key, limits, a.now, a.Reads(key));
      LockStateKeepsWindow(kind, s, limits, a, key);
    } else {
      var _ := AttemptOnWindow(kind, s, limits, a, key);
    }
    WindowLapses(kind, Handle(s, limits, a), key, a.now, now);
  }

  lemma {:induction false} FullWindowLasts(
    kind: Kind, s: Stores, limits: Limits, later: seq<Attempt>, key: Key, start: int, end: int, now: int)
    requires FullUntil(kind, s, limits, key, start, end) && start <= now < end
    requires Follows(later, start) && (later != [] ==> later[|later| - 1].now <= now)
    requires forall a | a in later :: Sees(kind, a, key)
    ensures FullUntil(kind, HandleAll(s, limits, later), limits, key, now, end)
    ensures forall other: Kind :: AdmittedTimes(other, s, limits, later, key) == []
    decreases |later|
  {
    hide Handle, CountedIn;
    if later == [] {
      WindowLapses(kind, s, key, start, now);
    } else {
      var before, last := later[..|later| - 1], later[|later| - 1];
      FullWindowLasts(kind, s, limits, before, key, start, end, last.now);
      FullWindowRefuses(kind, HandleAll(s, limits, before), limits, last, key, end, now);
    }
  }

  /** When the running window of the key ends, if it does. */
  function EndOf(kind: Kind, s: Stores, key: Key, now: int): int {
    var open := OpenWindow(kind, s, key, now);
    if open.Some? && open.value.end.Some? then open.value.end.value else now
  }

  /** The refused attempt that finds the lock leaves the window full, with an end at most one window ahead. */
  lemma LockHasAnEnd(kind: Kind, s: Stores, limits: Limits, first: Attempt, key: Key)
    requires NoFarExpiry(s, Window(limits), first.now) && first.Touches(key) && first.Reads(key)
    requires IsFull(OpenWindow(kind, s, key, first.now), limits, key)
    ensures Refused(s, limits, first)
    ensures var end := EndOf(kind, Handle(s, limits, first), key, first.now);
            end <= first.now + Window(limits) && FullUntil(kind, Handle(s, limits, first), limits, key, first.now, end)
  {
    LockedIffAWindowIsFull(s, key, limits, first.now, true);
    LockStateKeepsWindow(kind, s, limits, first, key);
    ReachableReadBoundsTheLock(s, limits, first, key, kind);
  }

  predicate LockedOut(s: Stores, limits: Limits, later: seq<Attempt>, key: Key, i: nat)
    requires i < |later|
  {
    later[i].Touches(key) ==> Refused(HandleAll(s, limits, later[..i]), limits, later[i])
  }

  lemma LockedOutThroughout(
    kind: Kind, s: Stores, limits: Limits, later: seq<Attempt>, key: Key, start: int, end: int, i: nat)
    requires i < |later| && FullUntil(kind, s, limits, key, start, end)
    requires Follows(later, start)
    requires forall a | a in later :: a.now < end && Sees(kind, a, key)
    ensures LockedOut(s, limits, later, key, i)
  {
    hide HandleAll, Handle;
    var before, a := later[..i], later[i];
    assert a in later && start <= a.now;
    FullWindowLasts(kind, s, limits, before, key, start, end, a.now);
    FullWindowRefuses(kind, HandleAll(s, limits, before), limits, a, key, end, a.now);
  }

  /** A lock holds, and then it ends. In any run, let one attempt read a full window of its subject. Until that
      window ends every attempt of the subject that can read it is refused, whatever its password; the end is at most
      one window away; and where the subject tried only before it, the subject is free one window later. */
  lemma LockHoldsAndEnds(
    limits: Limits, past: seq<Attempt>, first: Attempt, later: seq<Attempt>, key: Key, kind: Kind, now: int,
    reached: bool)
    requires InOrder(past) && (past != [] ==> past[|past| - 1].now <= first.now) && Follows(later, first.now)
    requires first.Touches(key) && first.Reads(key)
    requires IsFull(OpenWindow(kind, HandleAll(EMPTY, limits, past), key, first.now), limits, key)
    requires var end := EndOf(kind, HandleAll(EMPTY, limits, past + [first]), key, first.now);
             forall a | a in later :: a.now < end && Sees(kind, a, key)
    requires now >= first.now + limits.windowSeconds * 1000
    ensures var s := HandleAll(EMPTY, limits, past + [first]);
            && first.now < EndOf(kind, s, key, first.now) <= first.now + limits.windowSeconds * 1000
            && (forall i: nat | i < |later| :: LockedOut(s, limits, later, key, i))
            && !KeyLocked(HandleAll(s, limits, later), key, limits, now, reached)
  {
    hide HandleAll, Handle, AdmittedTimes, LockedOut, IsFull, OpenWindow, NoFarExpiry;
    var before := HandleAll(EMPTY, limits, past);
    var s := HandleAll(EMPTY, limits, past + [first]);
    HandleLast(kind, EMPTY, limits, past, first, key);
    ExpiriesStayNear(limits, past, first.now);
    LockHasAnEnd(kind, before, limits, first, key);
    var end := EndOf(kind, s, key, first.now);
    forall i: nat | i < |later| ensures LockedOut(s, limits, later, key, i) {
      LockedOutThroughout(kind, s, limits, later, key, first.now, end, i);
    }
    if later == [] {
      FullWindowLasts(kind, s, limits, later, key, first.now, end, first.now);
    } else {
      assert later[|later| - 1] in later;
      FullWindowLasts(kind, s, limits, later, key, first.now, end, later[|later| - 1].now);
    }
    EveryLockEnds(before, limits, first, later, key, now, reached);
  }
}
