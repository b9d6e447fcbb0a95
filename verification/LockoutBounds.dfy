/** The brute-force bound, that it is reached, and where Redis outages break it. */
module LockoutBounds {
  import opened Wrappers
  import opened Redis
  import opened LoginAttempts
  import opened LockoutRuns

  /** `times` are the counted instants so far. Within the running window there are `count` of them, at most `limit`, and
      any `2 * limit` consecutive ones span at least one window length. */
  ghost predicate Bounded(open: Option<Open>, times: seq<int>, limit: int, window: int, now: int)
    requires limit > 0
  {
    var n := |times|;
    && (forall i, j | 0 <= i < j < n :: times[i] <= times[j])
    && (forall i | 0 <= i < n :: times[i] <= now)
    && (forall i, j | 0 <= i && i + 2 * limit - 1 <= j < n :: times[j] - times[i] >= window)
    && match open
       case None => forall i | 0 <= i <= n - limit && i < n :: times[i] + window <= now
       case Some(o) =>
         && 1 <= o.count <= limit
         && o.count <= n
         && (o.end.Some? ==> o.end.value >= times[n - o.count] + window)
         && (forall i | 0 <= i <= n - o.count - limit :: times[i] + window <= times[n - o.count])
  }

  lemma CountingKeepsBound(
    before: Option<Open>, after: Option<Open>, times: seq<int>, limit: int, window: int, now: int)
    requires limit > 0 && window > 0 && Bounded(before, times, limit, window, now)
    requires OneMore(before, after, window, now) && (before.Some? ==> before.value.count < limit)
    ensures Bounded(after, times + [now], limit, window, now)
  {
    var n, times' := |times|, times + [now];
    assert forall i | 0 <= i < n :: times'[i] == times[i];
    SpanAfterCounting(before, after, times, limit, window, now);
    if before.Some? {
      assert n + 1 - after.value.count == n - before.value.count && times[n - before.value.count] <= now;
    } else {
      assert n + 1 - after.value.count == n && times'[n] == now;
    }
  }

  lemma SpanAfterCounting(
    before: Option<Open>, after: Option<Open>, times: seq<int>, limit: int, window: int, now: int)
    requires limit > 0 && window > 0 && Bounded(before, times, limit, window, now)
    requires before.Some? ==> before.value.count < limit
    ensures forall i, j | 0 <= i && i + 2 * limit - 1 <= j < |times| + 1 ::
              (times + [now])[j] - (times + [now])[i] >= window
  {
    var n := |times|;
    forall i | 0 <= i <= n - (2 * limit - 1) && i < n ensures now - times[i] >= window {
      if before.Some? {
        assert i <= (n - before.value.count) - limit;
        assert times[n - before.value.count] <= now;
      }
    }
  }

  predicate WithinLimit(kind: Kind, s: Stores, limits: Limits, key: Key, now: int) {
    var open := OpenWindow(kind, s, key, now);
    open.Some? ==> open.value.count <= LimitFor(limits, key)
  }

  /** The failure is let through because the read of the full Redis counter did not reach it, and is counted there
      all the same. */
  predicate Overshoots(kind: Kind, s: Stores, limits: Limits, a: Attempt, key: Key) {
    var open := OpenWindow(kind, s, key, a.now);
    && kind.InRedis? && CountedIn(kind, s, limits, a, key) && !a.Reads(key)
    && open.Some? && open.value.count == LimitFor(limits, key)
  }

  /** From within its limit, one attempt takes a window past it exactly by overshooting. */
  lemma OvershootsIff(kind: Kind, s: Stores, limits: Limits, a: Attempt, key: Key)
    requires WithinLimit(kind, s, limits, key, a.now)
    ensures !WithinLimit(kind, Handle(s, limits, a), limits, key, a.now) <==> Overshoots(kind, s, limits, a, key)
  {
    if key == a.Account() && a.password.Right? {
      CorrectPasswordOnWindow(kind, s, limits, a);
    } else {
      var _ := AttemptOnWindow(kind, s, limits, a, key);
      if CountedIn(kind, s, limits, a, key) && (kind.InMemory? || a.Reads(key)) {
        AdmittedBelowLimit(kind, s, limits, a, key);
      }
    }
  }

  // -- over runs

  predicate WithinAfter(kind: Kind, limits: Limits, attempts: seq<Attempt>, key: Key, i: nat)
    requires i < |attempts|
  {
    WithinLimit(kind, HandleAll(EMPTY, limits, attempts[..i + 1]), limits, key, attempts[i].now)
  }

  predicate OvershootsAt(kind: Kind, limits: Limits, attempts: seq<Attempt>, key: Key, i: nat)
    requires i < |attempts|
  {
    Overshoots(kind, HandleAll(EMPTY, limits, attempts[..i]), limits, attempts[i], key)
  }

  lemma WithinBefore(kind: Kind, limits: Limits, attempts: seq<Attempt>, key: Key, i: nat)
    requires i < |attempts| && InOrder(attempts) && (i > 0 ==> WithinAfter(kind, limits, attempts, key, i - 1))
    ensures WithinLimit(kind, HandleAll(EMPTY, limits, attempts[..i]), limits, key, attempts[i].now)
  {
    if i > 0 {
      WindowLapses(kind, HandleAll(EMPTY, limits, attempts[..i]), key, attempts[i - 1].now, attempts[i].now);
    }
  }

  lemma WithinStepIff(kind: Kind, limits: Limits, attempts: seq<Attempt>, key: Key, i: nat)
    requires i < |attempts| && InOrder(attempts) && (i > 0 ==> WithinAfter(kind, limits, attempts, key, i - 1))
    ensures WithinAfter(kind, limits, attempts, key, i) <==> !OvershootsAt(kind, limits, attempts, key, i)
  {
    WithinBefore(kind, limits, attempts, key, i);
    OvershootsIff(kind, HandleAll(EMPTY, limits, attempts[..i]), limits, attempts[i], key);
    assert attempts[..i + 1] == attempts[..i] + [attempts[i]];
    HandleLast(kind, EMPTY, limits, attempts[..i], attempts[i], key);
  }

  lemma {:induction false} WithinUpToIff(kind: Kind, limits: Limits, attempts: seq<Attempt>, key: Key, n: nat)
    requires n <= |attempts| && InOrder(attempts)
    ensures (forall i: nat | i < n :: WithinAfter(kind, limits, attempts, key, i))
       <==> (forall i: nat | i < n :: !OvershootsAt(kind, limits, attempts, key, i))
  {
    hide WithinAfter, OvershootsAt;
    if n > 0 {
      WithinUpToIff(kind, limits, attempts, key, n - 1);
      if forall i: nat | i < n - 1 :: WithinAfter(kind, limits, attempts, key, i) {
        WithinStepIff(kind, limits, attempts, key, n - 1);
      }
    }
  }

  /** Where Redis goes up and down: over any run, whatever it answers and for an account or a client, a store's
      window of a key stays within the limit after every attempt if and only if no attempt overshoots. Memory never
      overshoots. */
  lemma WindowsStayWithinIff(kind: Kind, limits: Limits, attempts: seq<Attempt>, key: Key)
    requires InOrder(attempts)
    ensures (forall i: nat | i < |attempts| :: WithinAfter(kind, limits, attempts, key, i))
       <==> (forall i: nat | i < |attempts| :: !OvershootsAt(kind, limits, attempts, key, i))
    ensures kind.InMemory? ==> forall i: nat | i < |attempts| :: WithinAfter(kind, limits, attempts, key, i)
  {
    WithinUpToIff(kind, limits, attempts, key, |attempts|);
  }

  // -- any span of one window length

  /** The attempt does not clear the key: only the account's right password does, and only where it is let through. */
  predicate NotForgiven(s: Stores, limits: Limits, a: Attempt, key: Key) {
    key.LoginAccount? && a.Touches(key) && a.password.Right? ==> Refused(s, limits, a)
  }

  predicate NotForgivenAt(limits: Limits, attempts: seq<Attempt>, key: Key, i: nat)
    requires i < |attempts|
  {
    NotForgiven(HandleAll(EMPTY, limits, attempts[..i]), limits, attempts[i], key)
  }

  /** No attempt of the run clears the key, and none overshoots. */
  ghost predicate Steady(kind: Kind, limits: Limits, attempts: seq<Attempt>, key: Key) {
    forall i: nat | i < |attempts| ::
      NotForgivenAt(limits, attempts, key, i) && !OvershootsAt(kind, limits, attempts, key, i)
  }

  lemma SteadyFront(kind: Kind, limits: Limits, attempts: seq<Attempt>, key: Key)
    requires attempts != [] && Steady(kind, limits, attempts, key)
    ensures Steady(kind, limits, attempts[..|attempts| - 1], key)
  {
    var before := attempts[..|attempts| - 1];
    forall i: nat | i < |before|
      ensures NotForgivenAt(limits, before, key, i) && !OvershootsAt(kind, limits, before, key, i)
    {
      assert before[..i] == attempts[..i];
      assert NotForgivenAt(limits, attempts, key, i) && !OvershootsAt(kind, limits, attempts, key, i);
    }
  }

  lemma LapsingKeepsBound(open: Option<Open>, times: seq<int>, limit: int, window: int, now: int, later: int)
    requires limit > 0 && now <= later && Bounded(open, times, limit, window, now)
    ensures Bounded(Lapsed(open, later), times, limit, window, later)
  {
    if open.Some? && Lapsed(open, later).None? {
      var start := |times| - open.value.count;
      forall i | 0 <= i <= |times| - limit && i < |times| ensures times[i] + window <= later {
        assert times[i] <= times[start];
      }
    }
  }

  lemma StepKeepsBound(
    before: Option<Open>, mid: Option<Open>, after: Option<Open>, counted: bool,
    times: seq<int>, limit: int, window: int, now: int, later: int)
    requires limit > 0 && window > 0 && now <= later
    requires Bounded(before, times, limit, window, now) && SameWindow(before, mid, window, now)
    requires if counted then OneMore(mid, after, window, now) else after == mid
    requires counted && before.Some? ==> before.value.count < limit
    ensures Bounded(Lapsed(after, later), times + if counted then [now] else [], limit, window, later)
  {
    assert Bounded(mid, times, limit, window, now);
    var times' := times + if counted then [now] else [];
    if counted {
      CountingKeepsBound(mid, after, times, limit, window, now);
    } else {
      assert times' == times;
    }
    LapsingKeepsBound(after, times', limit, window, now, later);
  }

  lemma AttemptKeepsBound(kind: Kind, s: Stores, limits: Limits, a: Attempt, key: Key, times: seq<int>, now: int)
    requires NotForgiven(s, limits, a, key) && !Overshoots(kind, s, limits, a, key) && a.now <= now
    requires Bounded(OpenWindow(kind, s, key, a.now), times, LimitFor(limits, key), Window(limits), a.now)
    ensures Bounded(OpenWindow(kind, Handle(s, limits, a), key, now),
                    times + if CountedIn(kind, s, limits, a, key) then [a.now] else [],
                    LimitFor(limits, key), Window(limits), now)
  {
    var counted := CountedIn(kind, s, limits, a, key);
    if counted && (kind.InMemory? || a.Reads(key)) {
      AdmittedBelowLimit(kind, s, limits, a, key);
    }
    var mid := AttemptOnWindow(kind, s, limits, a, key);
    WindowLapses(kind, Handle(s, limits, a), key, a.now, now);
    StepKeepsBound(OpenWindow(kind, s, key, a.now), mid, OpenWindow(kind, Handle(s, limits, a), key, a.now), counted,
                   times, LimitFor(limits, key), Window(limits), a.now, now);
  }

  lemma {:induction false} RunIsBounded(kind: Kind, limits: Limits, attempts: seq<Attempt>, key: Key, now: int)
    requires InOrder(attempts) && Steady(kind, limits, attempts, key)
    requires attempts != [] ==> attempts[|attempts| - 1].now <= now
    ensures Bounded(OpenWindow(kind, HandleAll(EMPTY, limits, attempts), key, now),
                    AdmittedTimes(kind, EMPTY, limits, attempts, key), LimitFor(limits, key), Window(limits), now)
  {
    if attempts != [] {
      var before, last := attempts[..|attempts| - 1], attempts[|attempts| - 1];
      SteadyFront(kind, limits, attempts, key);
      assert NotForgivenAt(limits, attempts, key, |before|) && !OvershootsAt(kind, limits, attempts, key, |before|);
      RunIsBounded(kind, limits, before, key, last.now);
      AttemptKeepsBound(kind, HandleAll(EMPTY, limits, before), limits, last, key,
                        AdmittedTimes(kind, EMPTY, limits, before, key), now);
    }
  }

  function IndicesWithin(times: seq<int>, from: int, length: int): set<nat> {
    set i: nat | i < |times| && from <= times[i] < from + length
  }

  lemma FewWithinOneWindow(open: Option<Open>, times: seq<int>, limit: int, window: int, now: int, from: int)
    requires limit > 0 && Bounded(open, times, limit, window, now)
    ensures open.Some? ==> open.value.count <= limit
    ensures |IndicesWithin(times, from, window)| <= 2 * limit - 1
  {
    var within := IndicesWithin(times, from, window);
    if within != {} {
      var first := LeastOf(within);
      forall i | i in within ensures i in Span(first, 2 * limit - 1) {
        assert times[i] - times[first] < window;
      }
      SpanSize(first, 2 * limit - 1);
      SubsetSize(within, Span(first, 2 * limit - 1));
    }
  }

  /** The brute-force bound. Over any run of attempts on any accounts from any addresses, and for either store, no time
      span of one window length contains more than 2 * limit - 1 admitted failures of a key, and no window more than the
      limit. For an account the run must contain no success, though its right password may be presented, and is refused,
      while it is locked. For the memory store nothing is needed of Redis; for the Redis store no attempt may overshoot,
      which is exactly when its windows stay within the limit. */
  lemma LockoutBound(kind: Kind, limits: Limits, attempts: seq<Attempt>, key: Key, now: int, from: int)
    requires InOrder(attempts)
    requires forall i: nat | i < |attempts| :: NotForgivenAt(limits, attempts, key, i)
    requires kind.InRedis? ==> forall i: nat | i < |attempts| :: !OvershootsAt(kind, limits, attempts, key, i)
    requires attempts != [] ==> attempts[|attempts| - 1].now <= now
    ensures var open := OpenWindow(kind, HandleAll(EMPTY, limits, attempts), key, now);
            open.Some? ==> open.value.count <= LimitFor(limits, key)
    ensures |IndicesWithin(AdmittedTimes(kind, EMPTY, limits, attempts, key), from, Window(limits))|
         <= 2 * LimitFor(limits, key) - 1
  {
    RunIsBounded(kind, limits, attempts, key, now);
    FewWithinOneWindow(OpenWindow(kind, HandleAll(EMPTY, limits, attempts), key, now),
                       AdmittedTimes(kind, EMPTY, limits, attempts, key),
                       LimitFor(limits, key), Window(limits), now, from);
  }

  /** With the numbers: at most 2 * perAccount - 1 admitted failures of an account in one window length. */
  lemma AccountBound(kind: Kind, limits: Limits, attempts: seq<Attempt>, email: nat, from: int)
    requires InOrder(attempts)
    requires forall i: nat | i < |attempts| :: NotForgivenAt(limits, attempts, LoginAccount(email), i)
    requires kind.InRedis?
             ==> forall i: nat | i < |attempts| :: !OvershootsAt(kind, limits, attempts, LoginAccount(email), i)
    ensures |IndicesWithin(AdmittedTimes(kind, EMPTY, limits, attempts, LoginAccount(email)), from,
                           limits.windowSeconds * 1000)|
         <= 2 * limits.perAccount - 1
  {
    hide IndicesWithin, AdmittedTimes;
    LockoutBound(kind, limits, attempts, LoginAccount(email),
                 if attempts == [] then 0 else attempts[|attempts| - 1].now, from);
  }

  /** And at most 2 * perIp - 1 from one address, whatever succeeds in between. */
  lemma AddressBound(kind: Kind, limits: Limits, attempts: seq<Attempt>, ip: nat, from: int)
    requires InOrder(attempts)
    requires kind.InRedis? ==> forall i: nat | i < |attempts| :: !OvershootsAt(kind, limits, attempts, LoginIp(ip), i)
    ensures |IndicesWithin(AdmittedTimes(kind, EMPTY, limits, attempts, LoginIp(ip)), from,
                           limits.windowSeconds * 1000)|
         <= 2 * limits.perIp - 1
  {
    hide IndicesWithin, AdmittedTimes;
    LockoutBound(kind, limits, attempts, LoginIp(ip),
                 if attempts == [] then 0 else attempts[|attempts| - 1].now, from);
  }

  // -- the bound is reached

  /** Who is guessed at: one account without a client address, or a new account each time from one address. */
  datatype Subject = OneAccount | OneAddress
  {
    function Counter(): Key { if OneAccount? then LoginAccount(0) else LoginIp(0) }

    function Limit(limits: Limits): int { if OneAccount? then limits.perAccount else limits.perIp }
  }

  /** The guess number `n`: a wrong password, with Redis out of reach. */
  function Guess(target: Subject, n: nat, now: int): Attempt {
    match target
    case OneAccount => Attempt(0, None, Wrong, now, false, false, Unreached, Unreached, false)
    case OneAddress => Attempt(n, Some(0), Wrong, now, false, false, Unreached, Unreached, false)
  }

  function Guesses(target: Subject, first: nat, n: nat, now: int): seq<Attempt> {
    if n == 0 then [] else Guesses(target, first, n - 1, now) + [Guess(target, first + n - 1, now)]
  }

  function Repeated(n: nat, now: int): seq<int> { if n == 0 then [] else Repeated(n - 1, now) + [now] }

  /** Redis holds nothing, `open` is the subject's window in memory, and the accounts from `next` on have none. */
  ghost predicate InMemoryOnly(target: Subject, s: Stores, next: nat, now: int, open: Option<Open>) {
    && s.redis == map[] && MemoryWindow(s.memory, target.Counter(), now) == open
    && (target.OneAddress? ==> forall n: nat | next <= n :: LoginAccount(n) !in s.memory)
  }

  function AfterGuess(open: Option<Open>, window: int, now: int): Open {
    if open.Some? then Open(open.value.count + 1, open.value.end) else Open(1, Some(now + window))
  }

  lemma GuessIsAdmitted(target: Subject, s: Stores, limits: Limits, n: nat, now: int, open: Option<Open>)
    requires InMemoryOnly(target, s, n, now, open) && (open.Some? ==> open.value.count < target.Limit(limits))
    ensures !Refused(s, limits, Guess(target, n, now))
    ensures CountedIn(InMemory, s, limits, Guess(target, n, now), target.Counter())
  {
    RefusedIff(s, limits, Guess(target, n, now));
  }

  /** The memory after an admitted guess: read, then counted for the account and, if there is one, the address. */
  function AfterCounting(target: Subject, m: Memory, n: nat, window: int, now: int): Memory {
    match target
    case OneAccount => CountedAndPruned(SweptOnRead(m, LoginAccount(0), now), LoginAccount(0), window, now)
    case OneAddress =>
      var swept := SweptOnRead(SweptOnRead(m, LoginAccount(n), now), LoginIp(0), now);
      CountedAndPruned(CountedAndPruned(swept, LoginAccount(n), window, now), LoginIp(0), window, now)
  }

  lemma AdmittedGuessIs(target: Subject, s: Stores, limits: Limits, n: nat, now: int)
    requires s.redis == map[] && !Refused(s, limits, Guess(target, n, now))
    ensures Handle(s, limits, Guess(target, n, now))
         == Stores(AfterCounting(target, s.memory, n, Window(limits), now), map[])
  {
    hide Refused, CountedAndPruned, SweptOnRead;
    assert Guess(target, n, now).Client() == if target.OneAccount? then None else Some(LoginIp(0));
  }

  lemma CountingKeepsKeys(m: Memory, key: Key, window: int, now: int, other: Key)
    requires other != key && other !in m
    ensures other !in CountedAndPruned(m, key, window, now)
  {
  }

  lemma CountedWindow(target: Subject, m: Memory, n: nat, window: int, now: int)
    requires window > 0
    ensures MemoryWindow(AfterCounting(target, m, n, window, now), target.Counter(), now)
         == Some(AfterGuess(MemoryWindow(m, target.Counter(), now), window, now))
  {
    hide CountedAndPruned;
    if target.OneAccount? {
      MemoryCountsOnce(SweptOnRead(m, LoginAccount(0), now), LoginAccount(0), LoginAccount(0), window, now);
    } else {
      var swept := SweptOnRead(SweptOnRead(m, LoginAccount(n), now), LoginIp(0), now);
      MemoryCountsOnce(swept, LoginAccount(n), LoginIp(0), window, now);
      MemoryCountsOnce(CountedAndPruned(swept, LoginAccount(n), window, now), LoginIp(0), LoginIp(0), window, now);
    }
  }

  lemma GuessOnStores(target: Subject, s: Stores, limits: Limits, n: nat, now: int, open: Option<Open>)
    requires InMemoryOnly(target, s, n, now, open) && (open.Some? ==> open.value.count < target.Limit(limits))
    ensures CountedIn(InMemory, s, limits, Guess(target, n, now), target.Counter())
    ensures InMemoryOnly(target, Handle(s, limits, Guess(target, n, now)), n + 1, now,
                         Some(AfterGuess(open, Window(limits), now)))
  {
    hide Refused, Handle, CountedIn, CountedAndPruned;
    GuessIsAdmitted(target, s, limits, n, now, open);
    AdmittedGuessIs(target, s, limits, n, now);
    CountedWindow(target, s.memory, n, Window(limits), now);
    if target.OneAddress? {
      var swept := SweptOnRead(SweptOnRead(s.memory, LoginAccount(n), now), LoginIp(0), now);
      var counted := CountedAndPruned(swept, LoginAccount(n), Window(limits), now);
      forall k: nat | n + 1 <= k
        ensures LoginAccount(k) !in CountedAndPruned(counted, LoginIp(0), Window(limits), now)
      {
        CountingKeepsKeys(swept, LoginAccount(n), Window(limits), now, LoginAccount(k));
        CountingKeepsKeys(counted, LoginIp(0), Window(limits), now, LoginAccount(k));
      }
    }
  }

  function AfterGuesses(open: Option<Open>, n: nat, window: int, now: int): Option<Open> {
    if n == 0 then open else Some(AfterGuess(AfterGuesses(open, n - 1, window, now), window, now))
  }

  lemma {:induction false} AfterGuessesIs(open: Option<Open>, n: nat, window: int, now: int)
    requires n > 0
    ensures AfterGuesses(open, n, window, now)
         == Some(if open.Some? then Open(open.value.count + n, open.value.end) else Open(n, Some(now + window)))
  {
    if n > 1 { AfterGuessesIs(open, n - 1, window, now); }
  }

  /** One more guess at the same instant, while the budget lasts. */
  lemma OneMoreGuess(target: Subject, s: Stores, limits: Limits, first: nat, now: int, open: Option<Open>, n: nat)
    requires InMemoryOnly(target, HandleAll(s, limits, Guesses(target, first, n, now)), first + n, now,
                          AfterGuesses(open, n, Window(limits), now))
    requires (if open.Some? then open.value.count + n else n) < target.Limit(limits)
    ensures InMemoryOnly(target, HandleAll(s, limits, Guesses(target, first, n + 1, now)), first + n + 1, now,
                         AfterGuesses(open, n + 1, Window(limits), now))
    ensures AdmittedTimes(InMemory, s, limits, Guesses(target, first, n + 1, now), target.Counter())
         == AdmittedTimes(InMemory, s, limits, Guesses(target, first, n, now), target.Counter()) + [now]
  {
    hide HandleAll, AdmittedTimes, Handle, CountedIn, InMemoryOnly;
    var before, guess := Guesses(target, first, n, now), Guess(target, first + n, now);
    HandleLast(InMemory, s, limits, before, guess, target.Counter());
    if n > 0 { AfterGuessesIs(open, n, Window(limits), now); }
    var mid := AfterGuesses(open, n, Window(limits), now);
    GuessOnStores(target, HandleAll(s, limits, before), limits, first + n, now, mid);
  }

  lemma NoAttempts(s: Stores, limits: Limits, key: Key)
    ensures HandleAll(s, limits, []) == s && AdmittedTimes(InMemory, s, limits, [], key) == []
  {
  }

  /** The first `n` guesses at one instant are all counted while the budget lasts. */
  lemma {:induction false} GuessesAreCounted(
    target: Subject, s: Stores, limits: Limits, first: nat, now: int, open: Option<Open>, n: nat)
    requires InMemoryOnly(target, s, first, now, open)
    requires (if open.Some? then open.value.count + n else n) <= target.Limit(limits)
    ensures AdmittedTimes(InMemory, s, limits, Guesses(target, first, n, now), target.Counter()) == Repeated(n, now)
    ensures InMemoryOnly(target, HandleAll(s, limits, Guesses(target, first, n, now)), first + n, now,
                         AfterGuesses(open, n, Window(limits), now))
  {
    hide HandleAll, AdmittedTimes, InMemoryOnly, Guess;
    if n == 0 {
      NoAttempts(s, limits, target.Counter());
    } else {
      GuessesAreCounted(target, s, limits, first, now, open, n - 1);
      OneMoreGuess(target, s, limits, first, now, open, n - 1);
    }
  }

  lemma ConcatOneMore(kind: Kind, s: Stores, limits: Limits, a: seq<Attempt>, b: seq<Attempt>, last: Attempt, key: Key)
    requires HandleAll(s, limits, a + b) == HandleAll(HandleAll(s, limits, a), limits, b)
    requires AdmittedTimes(kind, s, limits, a + b, key)
          == AdmittedTimes(kind, s, limits, a, key) + AdmittedTimes(kind, HandleAll(s, limits, a), limits, b, key)
    ensures HandleAll(s, limits, a + (b + [last])) == HandleAll(HandleAll(s, limits, a), limits, b + [last])
    ensures AdmittedTimes(kind, s, limits, a + (b + [last]), key)
         == AdmittedTimes(kind, s, limits, a, key)
            + AdmittedTimes(kind, HandleAll(s, limits, a), limits, b + [last], key)
  {
    hide HandleAll, AdmittedTimes, Handle, CountedIn;
    assert a + (b + [last]) == (a + b) + [last];
    HandleLast(kind, s, limits, a + b, last, key);
    HandleLast(kind, HandleAll(s, limits, a), limits, b, last, key);
  }

  lemma {:induction false} HandleConcat(
    kind: Kind, s: Stores, limits: Limits, a: seq<Attempt>, b: seq<Attempt>, key: Key)
    ensures HandleAll(s, limits, a + b) == HandleAll(HandleAll(s, limits, a), limits, b)
    ensures AdmittedTimes(kind, s, limits, a + b, key)
         == AdmittedTimes(kind, s, limits, a, key) + AdmittedTimes(kind, HandleAll(s, limits, a), limits, b, key)
  {
    hide Handle, CountedIn;
    if b == [] {
      assert a + b == a;
    } else {
      var before, last := b[..|b| - 1], b[|b| - 1];
      assert b == before + [last];
      HandleConcat(kind, s, limits, a, before, key);
      ConcatOneMore(kind, s, limits, a, before, last, key);
    }
  }

  lemma {:induction false} RepeatedIs(n: nat, now: int)
    ensures |Repeated(n, now)| == n && forall i | 0 <= i < n :: Repeated(n, now)[i] == now
  {
    if n > 0 { RepeatedIs(n - 1, now); }
  }

  /** One guess opens a window, the rest of the budget goes just before it ends and a whole one right after. */
  function EarlyRun(target: Subject, limits: Limits, start: int): seq<Attempt> {
    Guesses(target, 0, 1, start) + Guesses(target, 1, target.Limit(limits) - 1, start + Window(limits) - 1)
  }

  function WorstCase(target: Subject, limits: Limits, start: int): seq<Attempt> {
    var limit := target.Limit(limits);
    EarlyRun(target, limits, start) + Guesses(target, limit, limit, start + Window(limits))
  }

  function WorstTimes(limit: int, window: int, start: int): seq<int>
    requires limit > 0
  {
    Repeated(1, start) + Repeated(limit - 1, start + window - 1) + Repeated(limit, start + window)
  }

  lemma MemoryOnlyLapses(target: Subject, s: Stores, next: nat, now: int, open: Option<Open>, later: int)
    requires InMemoryOnly(target, s, next, now, open) && now <= later
    ensures InMemoryOnly(target, s, next, later, Lapsed(open, later))
  {
    WindowLapses(InMemory, s, target.Counter(), now, later);
  }

  lemma EarlyGuesses(target: Subject, s: Stores, limits: Limits, start: int)
    requires InMemoryOnly(target, s, 0, start, None)
    ensures InMemoryOnly(target, HandleAll(s, limits, EarlyRun(target, limits, start)), target.Limit(limits),
                         start + Window(limits), None)
    ensures AdmittedTimes(InMemory, s, limits, EarlyRun(target, limits, start), target.Counter())
         == Repeated(1, start) + Repeated(target.Limit(limits) - 1, start + Window(limits) - 1)
  {
    hide HandleAll, AdmittedTimes, Guesses, InMemoryOnly;
    var limit, window, last := target.Limit(limits), Window(limits), start + Window(limits) - 1;
    var s1, open := HandleAll(s, limits, Guesses(target, 0, 1, start)), Some(Open(1, Some(start + window)));
    GuessesAreCounted(target, s, limits, 0, start, None, 1);
    AfterGuessesIs(None, 1, window, start);
    MemoryOnlyLapses(target, s1, 1, start, open, last);
    GuessesAreCounted(target, s1, limits, 1, last, open, limit - 1);
    if limit > 1 { AfterGuessesIs(open, limit - 1, window, last); }
    MemoryOnlyLapses(target, HandleAll(s1, limits, Guesses(target, 1, limit - 1, last)), limit, last,
                     AfterGuesses(open, limit - 1, window, last), start + window);
    HandleConcat(
      InMemory, s, limits, Guesses(target, 0, 1, start), Guesses(target, 1, limit - 1, last), target.Counter());
  }

  lemma WorstCaseIsCounted(target: Subject, s: Stores, limits: Limits, start: int)
    requires InMemoryOnly(target, s, 0, start, None)
    ensures AdmittedTimes(InMemory, s, limits, WorstCase(target, limits, start), target.Counter())
         == WorstTimes(target.Limit(limits), Window(limits), start)
  {
    hide HandleAll, AdmittedTimes, Guesses, InMemoryOnly;
    var early, limit := EarlyRun(target, limits, start), target.Limit(limits);
    EarlyGuesses(target, s, limits, start);
    GuessesAreCounted(target, HandleAll(s, limits, early), limits, limit, start + Window(limits), None, limit);
    HandleConcat(InMemory, s, limits, early, Guesses(target, limit, limit, start + Window(limits)), target.Counter());
  }

  lemma WorstTimesAt(limit: int, window: int, start: int, i: nat)
    requires limit > 0 && i < 2 * limit
    ensures |WorstTimes(limit, window, start)| == 2 * limit
    ensures WorstTimes(limit, window, start)[i]
         == if i < 1 then start else if i < limit then start + window - 1 else start + window
  {
    RepeatedIs(1, start);
    RepeatedIs(limit - 1, start + window - 1);
    RepeatedIs(limit, start + window);
  }

  lemma AllButTheFirst(times: seq<int>, from: int, length: int)
    requires times != [] && times[0] < from && forall i | 1 <= i < |times| :: from <= times[i] < from + length
    ensures |IndicesWithin(times, from, length)| == |times| - 1
  {
    assert IndicesWithin(times, from, length) == Span(1, |times| - 1);
    SpanSize(1, |times| - 1);
  }

  lemma WorstTimesWithin(limit: int, window: int, start: int)
    requires limit > 0 && window > 1
    ensures |IndicesWithin(WorstTimes(limit, window, start), start + window - 1, window)| == 2 * limit - 1
  {
    hide WorstTimes, IndicesWithin;
    var all := WorstTimes(limit, window, start);
    WorstTimesAt(limit, window, start, 0);
    forall i: nat | 1 <= i < |all| ensures start + window - 1 <= all[i] < start + window - 1 + window {
      WorstTimesAt(limit, window, start, i);
    }
    AllButTheFirst(all, start + window - 1, window);
  }

  /** The bounds cannot be improved: whatever the limits and whenever it starts, guessing at one account puts
      2 * perAccount - 1 admitted failures in one window length, and guessing at as many accounts as there are guesses
      puts 2 * perIp - 1 of one address there. */
  lemma LockoutBoundIsReached(limits: Limits, start: int)
    ensures var times := AdmittedTimes(InMemory, EMPTY, limits, WorstCase(OneAccount, limits, start), LoginAccount(0));
            |IndicesWithin(times, start + limits.windowSeconds * 1000 - 1, limits.windowSeconds * 1000)|
            == 2 * limits.perAccount - 1
    ensures var times := AdmittedTimes(InMemory, EMPTY, limits, WorstCase(OneAddress, limits, start), LoginIp(0));
            |IndicesWithin(times, start + limits.windowSeconds * 1000 - 1, limits.windowSeconds * 1000)|
            == 2 * limits.perIp - 1
    ensures forall i, j | 0 <= i < j < |WorstCase(OneAddress, limits, start)| ::
              WorstCase(OneAddress, limits, start)[i].email != WorstCase(OneAddress, limits, start)[j].email
  {
    hide AdmittedTimes, WorstCase, WorstTimes, IndicesWithin;
    WorstCaseIsCounted(OneAccount, EMPTY, limits, start);
    WorstTimesWithin(limits.perAccount, Window(limits), start);
    WorstCaseIsCounted(OneAddress, EMPTY, limits, start);
    WorstTimesWithin(limits.perIp, Window(limits), start);
    AccountsAreDistinct(limits, start);
  }

  lemma {:induction false} GuessesAre(first: nat, n: nat, now: int)
    ensures |Guesses(OneAddress, first, n, now)| == n
    ensures forall i | 0 <= i < n :: Guesses(OneAddress, first, n, now)[i].email == first + i
  {
    if n > 0 { GuessesAre(first, n - 1, now); }
  }

  lemma AccountsAreDistinct(limits: Limits, start: int)
    ensures var run := WorstCase(OneAddress, limits, start); forall i | 0 <= i < |run| :: run[i].email == i
  {
    hide Guesses;
    GuessesAre(0, 1, start);
    GuessesAre(1, limits.perIp - 1, start + Window(limits) - 1);
    GuessesAre(limits.perIp, limits.perIp, start + Window(limits));
  }

  lemma {:induction false} LeastOf(s: set<nat>) returns (least: nat)
    requires s != {}
    ensures least in s && forall x | x in s :: least <= x
  {
    least :| least in s;
    var rest := s - {least};
    if rest != {} {
      var other := LeastOf(rest);
      assert s == rest + {least};
      least := if least <= other then least else other;
    } else {
      assert s == {least};
    }
  }

  function Span(from: nat, length: nat): (span: set<nat>)
    ensures forall i: nat :: i in span <==> from <= i < from + length
  {
    if length == 0 then {} else Span(from, length - 1) + {from + length - 1}
  }

  lemma {:induction false} SpanSize(from: nat, length: nat)
    ensures |Span(from, length)| == length
  {
    if length > 0 {
      SpanSize(from, length - 1);
      var shorter := Span(from, length - 1);
      assert from + length - 1 !in shorter && Span(from, length) == shorter + {from + length - 1};
    }
  }

  lemma SubsetSize<T>(small: set<T>, big: set<T>)
    requires small <= big
    ensures |small| <= |big|
  {
    if small != {} {
      var x :| x in small;
      SubsetSize(small - {x}, big - {x});
    }
  }

  // -- an overshoot

  const ACCOUNT := LoginAccount(0)

  /** A failure of one account while Redis works. */
  function Failure(now: int): Attempt { Attempt(0, None, Wrong, now, true, true, Reached, Reached, true) }

  /** The same while the read is lost and the count is not. */
  function BlindFailure(now: int): Attempt { Failure(now).(accountRead := false) }

  function Failures(n: nat, now: int): seq<Attempt> { if n == 0 then [] else Failures(n - 1, now) + [Failure(now)] }

  ghost predicate InRedisOnly(s: Stores, now: int, open: Option<Open>) {
    s.memory == map[] && RedisWindow(s.redis, ACCOUNT, now) == open
  }

  lemma FailureOnStores(s: Stores, limits: Limits, now: int, open: Option<Open>, a: Attempt)
    requires a == Failure(now) || a == BlindFailure(now)
    requires InRedisOnly(s, now, open) && (open.Some? ==> open.value.end == Some(now + Window(limits)))
    requires open.Some? && a.accountRead ==> open.value.count < limits.perAccount
    ensures CountedIn(InRedis, s, limits, a, ACCOUNT)
    ensures InRedisOnly(Handle(s, limits, a), now, Some(AfterGuess(open, Window(limits), now)))
  {
    assert a.Account() == ACCOUNT && a.Client() == None;
    assert !Refused(s, limits, a);
    assert AfterReads(s, limits, a) == s;
  }

  function Filled(n: nat, window: int, now: int): Option<Open> {
    if n == 0 then None else Some(Open(n, Some(now + window)))
  }

  lemma OneMoreFailure(s: Stores, limits: Limits, now: int, n: nat)
    requires InRedisOnly(HandleAll(s, limits, Failures(n, now)), now, Filled(n, Window(limits), now))
    requires n < limits.perAccount
    ensures InRedisOnly(HandleAll(s, limits, Failures(n + 1, now)), now, Filled(n + 1, Window(limits), now))
  {
    hide HandleAll, Handle, CountedIn;
    HandleLast(InRedis, s, limits, Failures(n, now), Failure(now), ACCOUNT);
    FailureOnStores(HandleAll(s, limits, Failures(n, now)), limits, now, Filled(n, Window(limits), now), Failure(now));
  }

  lemma {:induction false} FailuresFillRedis(s: Stores, limits: Limits, now: int, n: nat)
    requires InRedisOnly(s, now, None) && n <= limits.perAccount
    ensures InRedisOnly(HandleAll(s, limits, Failures(n, now)), now, Filled(n, Window(limits), now))
  {
    hide Handle;
    if n > 0 {
      FailuresFillRedis(s, limits, now, n - 1);
      OneMoreFailure(s, limits, now, n - 1);
    }
  }

  /** For any limits: the budget is used up in Redis, one more failure is let in blind, and the window holds one too
      many. */
  lemma BlindFailureOvershoots(limits: Limits, now: int)
    ensures var run := Failures(limits.perAccount, now) + [BlindFailure(now)];
            var after := OpenWindow(InRedis, HandleAll(EMPTY, limits, run), ACCOUNT, now);
            && Overshoots(InRedis, HandleAll(EMPTY, limits, Failures(limits.perAccount, now)), limits,
                          BlindFailure(now), ACCOUNT)
            && after == Some(Open(limits.perAccount + 1, Some(now + Window(limits))))
            && after.value.count > LimitFor(limits, ACCOUNT)
  {
    hide HandleAll, Handle, AdmittedTimes;
    var full := HandleAll(EMPTY, limits, Failures(limits.perAccount, now));
    FailuresFillRedis(EMPTY, limits, now, limits.perAccount);
    FailureOnStores(full, limits, now, Some(Open(limits.perAccount, Some(now + Window(limits)))), BlindFailure(now));
    HandleLast(InRedis, EMPTY, limits, Failures(limits.perAccount, now), BlindFailure(now), ACCOUNT);
  }
}
