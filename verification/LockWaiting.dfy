/**
 * How long a thread waits for the lock while other threads keep making new calls: the announced writer for the
 * readers that are inside, a blocked reader for these and the announced writer, and for nobody who came later.
 */
module LockWaiting {
  import opened JobQueue
  import opened MemoryStore
  import opened Interleaving
  import opened Linearizability
  import opened LockProgress

  /** Some thread that is announced or inside makes a step. */
  ghost predicate SomeoneActs(c: Config, c': Config) {
    exists t: Tid :: Acts(c, c', t)
  }

  /** The steps a thread that is announced or inside still makes until it has unlocked. */
  function HoldCost(th: Thread, m: Mem): int {
    match th
    case Pending(op, _) => StatementsLeft(op, Enter, m) + 2
    case Inside(op, _, frame) => StatementsLeft(op, frame, m) + 1
    case _ => 0
  }

  function HoldCosts(threads: seq<Thread>, m: Mem): (costs: seq<int>)
    ensures |costs| == |threads|
    ensures forall t | 0 <= t < |threads| :: costs[t] == HoldCost(threads[t], m)
  {
    seq(|threads|, t requires 0 <= t < |threads| => HoldCost(threads[t], m))
  }

  /** The steps of all threads that are announced or inside. */
  function Ahead(c: Config): int {
    Total(HoldCosts(c.threads, c.mem))
  }

  lemma AheadFalls(c: Config, c': Config, t: Tid, steps: nat)
    requires t < |c.threads| && |c'.threads| == |c.threads|
    requires forall u | 0 <= u < |c.threads| && u != t ::
      HoldCost(c'.threads[u], c'.mem) <= HoldCost(c.threads[u], c.mem)
    requires HoldCost(c'.threads[t], c'.mem) + steps <= HoldCost(c.threads[t], c.mem)
    ensures Ahead(c') + steps <= Ahead(c)
  {
    TotalGrowsBy(HoldCosts(c.threads, c.mem), HoldCosts(c'.threads, c'.mem), t, 0);
  }

  /** Who comes later is not ahead. */
  lemma LatecomersWait(c: Config, c': Config, t: Tid)
    requires LockOk(c) && c.writer.Some? && (Invokes(c, c', t) || Arrives(c, c', t))
    ensures Ahead(c') <= Ahead(c) && c'.mem == c.mem
  {
    AheadFalls(c, c', t, 0);
  }

  lemma EnteringCounts(c: Config, c': Config, t: Tid)
    requires Enters(c, c', t)
    ensures Ahead(c') + 1 <= Ahead(c)
  {
    AheadFalls(c, c', t, 1);
  }

  lemma ReaderUnlockCounts(c: Config, c': Config, t: Tid)
    requires Unlocks(c, c', t) && c.threads[t].op.Reads()
    ensures Ahead(c') + 1 <= Ahead(c) && c'.mem == c.mem
  {
    AheadFalls(c, c', t, 1);
  }

  /** Another thread keeps its cost: a reader changes nothing, and beside a writer nobody else is ahead. */
  lemma OthersKeepCost(c: Config, c': Config, t: Tid, u: Tid)
    requires LockOk(c) && t < |c.threads| && u < |c.threads| && u != t && c.threads[t].Inside?
    requires u < |c'.threads| && c'.threads[u] == c.threads[u] && (c.threads[t].op.Reads() ==> c'.mem == c.mem)
    ensures HoldCost(c'.threads[u], c'.mem) == HoldCost(c.threads[u], c.mem)
  {
    assert HoldsLock(c, t) && HoldsLock(c, u);
  }

  lemma RunningCounts(q: Queue, c: Config, c': Config, t: Tid)
    requires WellFormed(q) && ConfigOk(q, c) && Runs(c, c', t)
    ensures Ahead(c') + 1 <= Ahead(c)
    ensures c.threads[t].op.Reads() ==> c'.mem == c.mem
  {
    var th, f' := c.threads[t], c'.threads[t].frame;
    assert Knows(t, th, After(q, c.log, |c.log|), c.mem, c.log);
    BodyEnds(th.op, After(q, c.log, |c.log|), th.frame, c.mem, f', c'.mem);
    if th.op.Reads() {
      ReadersDoNotWrite(th.op, th.frame, c.mem, f', c'.mem);
    }
    AllKeepCost(c, c', t, f');
  }

  lemma AllKeepCost(c: Config, c': Config, t: Tid, f': Frame)
    requires LockOk(c) && t < |c.threads| && c.threads[t].Inside?
    requires c'.threads == c.threads[t := c.threads[t].(frame := f')]
    requires c.threads[t].op.Reads() ==> c'.mem == c.mem
    requires StatementsLeft(c.threads[t].op, f', c'.mem) < StatementsLeft(c.threads[t].op, c.threads[t].frame, c.mem)
    ensures Ahead(c') + 1 <= Ahead(c)
  {
    forall u | 0 <= u < |c.threads| && u != t
      ensures HoldCost(c'.threads[u], c'.mem) <= HoldCost(c.threads[u], c.mem)
    {
      OthersKeepCost(c, c', t, u);
    }
    AheadFalls(c, c', t, 1);
  }

  /** While the same writer is announced, acting lowers what is ahead, and nothing raises it. */
  lemma ActingCounts(q: Queue, c: Config, c': Config)
    requires WellFormed(q) && ConfigOk(q, c) && Follows(c, c') && c.writer.Some? && c'.writer == c.writer
    ensures Ahead(c') + (if SomeoneActs(c, c') then 1 else 0) <= Ahead(c)
    ensures !WriterInside(c) ==> c'.mem == c.mem
  {
    if t: Tid :| Acts(c, c', t) {
      assert HoldsLock(c, t);
      if Enters(c, c', t) {
        EnteringCounts(c, c', t);
      } else if Runs(c, c', t) {
        RunningCounts(q, c, c', t);
      } else {
        ReaderUnlockCounts(c, c', t);
      }
    } else {
      var t: Tid :| Invokes(c, c', t) || Proceeds(c, c', t);
      assert !Acts(c, c', t);
      LatecomersWait(c, c', t);
    }
  }

  // ---- Whole waits ----

  /** A stretch of a trace: a configuration, and then others one after the other. */
  datatype Stretch = From(start: Config) | Then(before: Stretch, now: Config)
  {
    function First(): Config {
      match this
      case From(start) => start
      case Then(before, _) => before.First()
    }

    function Last(): Config {
      match this
      case From(start) => start
      case Then(_, now) => now
    }

    /** Threads make the steps, new calls among them, and all along thread `t` waits. */
    ghost predicate Waiting(t: Tid) {
      Waits(this.Last(), t) &&
      match this
      case From(_) => true
      case Then(before, now) => before.Waiting(t) && Follows(before.Last(), now)
    }

    /** How many of the steps were made by threads that were announced or inside. */
    ghost function ActsIn(): nat {
      match this
      case From(_) => 0
      case Then(before, now) => before.ActsIn() + if SomeoneActs(before.Last(), now) then 1 else 0
    }
  }

  /** Thread `t` waits for the lock: announced, or kept out by an announced writer. */
  predicate Waits(c: Config, t: Tid) {
    t < |c.threads| && (c.threads[t].Blocked? || c.threads[t].Pending?)
  }

  /** A thread that waits after the step has waited for the same writer before it. */
  lemma SameWriter(c: Config, c': Config, t: Tid)
    requires LockOk(c) && Follows(c, c') && Waits(c, t) && Waits(c', t)
    ensures c.writer.Some? && c'.writer == c.writer && c'.threads[t] == c.threads[t]
  {
    assert HoldsLock(c, t);
    var u: Tid :| Invokes(c, c', u) || Proceeds(c, c', u);
    assert u < |c.threads| && HoldsLock(c, u);
  }

  /** `t` has waited from `start` until `c`, while threads acted this often. */
  ghost predicate Waited(q: Queue, start: Config, c: Config, t: Tid, acts: nat)
    requires WellFormed(q)
  {
    && ConfigOk(q, c) && Waits(start, t) && Waits(c, t) && c.threads[t] == start.threads[t]
    && acts + Ahead(c) <= Ahead(start)
    && (c.threads[t].Pending? ==> c.mem == start.mem)
  }

  lemma WaitStarts(q: Queue, c: Config, t: Tid)
    requires WellFormed(q) && ConfigOk(q, c) && Waits(c, t)
    ensures Waited(q, c, c, t, 0)
  {
  }

  lemma WaitStep(q: Queue, start: Config, c: Config, c': Config, t: Tid, acts: nat)
    requires WellFormed(q) && Waited(q, start, c, t, acts) && Follows(c, c') && Waits(c', t)
    ensures Waited(q, start, c', t, acts + if SomeoneActs(c, c') then 1 else 0)
  {
    MoveKeeps(q, c, c');
    assert HoldsLock(c, t);
    SameWriter(c, c', t);
    ActingCounts(q, c, c');
  }

  lemma {:induction false} WaitIsPaid(q: Queue, wait: Stretch, t: Tid)
    requires WellFormed(q) && ConfigOk(q, wait.First()) && wait.Waiting(t)
    ensures Waited(q, wait.First(), wait.Last(), t, wait.ActsIn())
  {
    match wait
    case From(start) => WaitStarts(q, start, t);
    case Then(before, now) =>
      WaitIsPaid(q, before, t);
      WaitStep(q, before.First(), before.Last(), now, t, before.ActsIn());
  }

  /** What is ahead of a thread that waits: everyone announced or inside but itself. */
  function AheadOf(c: Config, t: Tid): int
    requires t < |c.threads|
  {
    Ahead(c) - HoldCost(c.threads[t], c.mem)
  }

  lemma AheadIsNonnegative(q: Queue, c: Config, t: Tid)
    requires WellFormed(q) && ConfigOk(q, c) && t < |c.threads|
    ensures 0 <= AheadOf(c, t)
  {
    var costs := HoldCosts(c.threads, c.mem);
    forall u | 0 <= u < |c.threads|
      ensures 0 <= costs[u]
    {
      assert Knows(u, c.threads[u], After(q, c.log, |c.log|), c.mem, c.log);
      if c.threads[u].Inside? {
        StatementsLeftIsNonnegative(c.threads[u].op, After(q, c.log, |c.log|), c.threads[u].frame, c.mem);
      }
    }
    TotalGrowsBy(costs, costs[t := 0], t, 0);
    TotalIsNonnegative(costs[t := 0]);
  }

  /**
   * However many new calls are made meanwhile: as long as thread `t` waits for the lock, as the announced writer or
   * as a reader kept out by one, the threads that are announced or inside act at most as often as those that were so
   * at the beginning had steps left, and until it is let in one of them can act.
   */
  lemma WaitsAreBounded(q: Queue, trace: Trace, wait: Stretch, t: Tid)
    requires WellFormed(q) && trace.From(q) && wait.First() == trace.Last() && wait.Waiting(t)
    ensures Waits(trace.Last(), t) && wait.ActsIn() <= AheadOf(trace.Last(), t)
    ensures exists c' :: SomeoneActs(wait.Last(), c')
  {
    TraceIsOk(q, trace);
    WaitIsPaid(q, wait, t);
    AheadIsNonnegative(q, wait.Last(), t);
    SomeoneAheadActs(q, wait.Last(), t);
  }

  /** While a thread waits, a thread ahead of it, or it itself, can act. */
  lemma SomeoneAheadActs(q: Queue, c: Config, t: Tid)
    requires WellFormed(q) && ConfigOk(q, c) && Waits(c, t)
    ensures exists c' :: SomeoneActs(c, c')
  {
    assert HoldsLock(c, t);
    var u, c' := HolderActs(q, c);
    assert SomeoneActs(c, c');
  }
}
