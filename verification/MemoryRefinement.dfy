/** The memory store refines plain counters. */
module MemoryRefinement {
  import opened Wrappers
  import opened Redis
  import opened LoginAttempts

  datatype MemoryOp = ReadKey(key: Key, now: int) | FailKey(key: Key, now: int) | ForgiveKey(key: Key, now: int)

  /** The store as it is: a read deletes a lapsed entry, and a count prunes all lapsed ones once there are too many. */
  function Apply(m: Memory, op: MemoryOp, window: int): Memory {
    match op
    case ReadKey(key, now) => SweptOnRead(m, key, now)
    case FailKey(key, now) => CountedAndPruned(m, key, window, now)
    case ForgiveKey(key, _) => m - {key}
  }

  /** One counter per key that is never cleaned up. */
  function ApplyPlain(m: Memory, op: MemoryOp, window: int): Memory {
    match op
    case ReadKey(_, _) => m
    case FailKey(key, now) => Counted(m, key, window, now)
    case ForgiveKey(key, _) => m - {key}
  }

  /** What a caller sees of each operation: the counter before a read, the counter after a count. */
  function Seen(before: Memory, after: Memory, op: MemoryOp): Option<CounterState> {
    match op
    case ReadKey(key, now) => MemoryCounter(before, key, now)
    case FailKey(key, now) => MemoryCounter(after, key, now)
    case ForgiveKey(_, _) => None
  }

  function AllSeen(m: Memory, ops: seq<MemoryOp>, window: int): seq<Option<CounterState>>
    decreases |ops|
  {
    if ops == [] then []
    else var after := Apply(m, ops[0], window); [Seen(m, after, ops[0])] + AllSeen(after, ops[1..], window)
  }

  function AllSeenPlain(m: Memory, ops: seq<MemoryOp>, window: int): seq<Option<CounterState>>
    decreases |ops|
  {
    if ops == [] then []
    else var after := ApplyPlain(m, ops[0], window); [Seen(m, after, ops[0])] + AllSeenPlain(after, ops[1..], window)
  }

  ghost predicate AgreeFrom(m: Memory, plain: Memory, now: int) {
    forall key ::
      (Running(m, key, now) <==> Running(plain, key, now)) && (Running(m, key, now) ==> m[key] == plain[key])
  }

  ghost predicate OpsInOrder(ops: seq<MemoryOp>) {
    forall i, j | 0 <= i < j < |ops| :: ops[i].now <= ops[j].now
  }

  lemma OpKeepsAgreement(m: Memory, plain: Memory, op: MemoryOp, window: int, now: int)
    requires window > 0 && AgreeFrom(m, plain, now) && now <= op.now
    ensures AgreeFrom(Apply(m, op, window), ApplyPlain(plain, op, window), op.now)
    ensures Seen(m, Apply(m, op, window), op) == Seen(plain, ApplyPlain(plain, op, window), op)
  {
    forall key
      ensures (Running(m, key, op.now) <==> Running(plain, key, op.now))
              && (Running(m, key, op.now) ==> m[key] == plain[key])
    {
      assert Running(m, key, op.now) ==> Running(m, key, now);
      assert Running(plain, key, op.now) ==> Running(plain, key, now);
    }
    match op
    case ReadKey(key, _) => SweepingAgrees(m, key, op.now);
    case FailKey(key, _) => CountingAndPruningAgrees(m, plain, key, window, op.now);
    case ForgiveKey(key, _) => ForgivingAgrees(m, plain, key, op.now);
  }

  lemma ForgivingAgrees(m: Memory, plain: Memory, key: Key, now: int)
    requires AgreeFrom(m, plain, now)
    ensures AgreeFrom(m - {key}, plain - {key}, now)
  {
  }

  lemma CountingAndPruningAgrees(m: Memory, plain: Memory, key: Key, window: int, now: int)
    requires window > 0 && AgreeFrom(m, plain, now)
    ensures AgreeFrom(CountedAndPruned(m, key, window, now), Counted(plain, key, window, now), now)
    ensures MemoryCounter(CountedAndPruned(m, key, window, now), key, now)
         == MemoryCounter(Counted(plain, key, window, now), key, now)
  {
    var counted := Counted(m, key, window, now);
    CountingAgrees(m, plain, key, window, now);
    PruningAgrees(counted, now);
    AgreeingCountersAreEqual(Pruned(counted, now), counted, key, now);
  }

  lemma AgreeingCountersAreEqual(m: Memory, plain: Memory, key: Key, now: int)
    requires AgreeFrom(m, plain, now)
    ensures MemoryCounter(m, key, now) == MemoryCounter(plain, key, now)
  {
    assert Running(m, key, now) <==> Running(plain, key, now);
  }

  lemma SweepingAgrees(m: Memory, key: Key, now: int)
    ensures AgreeFrom(SweptOnRead(m, key, now), m, now)
  {
  }

  lemma PruningAgrees(m: Memory, now: int)
    ensures AgreeFrom(Pruned(m, now), m, now)
  {
  }

  lemma CountingAgrees(m: Memory, plain: Memory, key: Key, window: int, now: int)
    requires AgreeFrom(m, plain, now)
    ensures AgreeFrom(Counted(m, key, window, now), Counted(plain, key, window, now), now)
    ensures MemoryCounter(Counted(m, key, window, now), key, now)
         == MemoryCounter(Counted(plain, key, window, now), key, now)
  {
    assert Running(m, key, now) <==> Running(plain, key, now);
  }

  lemma {:induction false} AgreeingStoresLookAlike(m: Memory, plain: Memory, ops: seq<MemoryOp>, window: int, now: int)
    requires window > 0 && AgreeFrom(m, plain, now) && OpsInOrder(ops) && (ops != [] ==> now <= ops[0].now)
    ensures AllSeen(m, ops, window) == AllSeenPlain(plain, ops, window)
    decreases |ops|
  {
    if ops != [] {
      OpKeepsAgreement(m, plain, ops[0], window, now);
      AgreeingStoresLookAlike(Apply(m, ops[0], window), ApplyPlain(plain, ops[0], window), ops[1..], window,
                              ops[0].now);
    }
  }

  /** Lazy deletion and pruning are invisible: every read and every count, over any run in clock order, answers what a
      plain counter per key would. */
  lemma MemoryRefinesPlainCounters(ops: seq<MemoryOp>, window: int)
    requires window > 0 && OpsInOrder(ops)
    ensures AllSeen(map[], ops, window) == AllSeenPlain(map[], ops, window)
  {
    if ops != [] {
      AgreeingStoresLookAlike(map[], map[], ops, window, ops[0].now);
    }
  }

  /** And they bound the store: after a count more than 5000 entries are left only if every one of them is running. */
  lemma MemoryStaysSmall(m: Memory, key: Key, window: int, now: int)
    ensures var after := CountedAndPruned(m, key, window, now);
            |after| > 5000 ==> forall k | k in after :: now < after[k].resetAt
  {
  }
}
