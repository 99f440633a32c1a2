/**
 * Threads, the read-write lock and the log of completed calls. Every trace of interleaved statements is
 * equivalent to the sequential order of its log.
 */
module Linearizability {
  import opened Wrappers
  import opened JobQueue
  import opened MemoryStore
  import opened Interleaving

  type Tid = nat

  /**
   * `since` is the number of calls completed when this one was made. As in `sync.RWMutex`, one writer at a time is
   * pending or inside; it waits for the readers that are inside, and readers that arrive meanwhile are blocked
   * until it unlocks.
   */
  datatype Thread =
    | Idle
    | Waiting(op: Op, since: nat)
    | Blocked(op: Op, since: nat)
    | Pending(op: Op, since: nat)
    | Inside(op: Op, since: nat, frame: Frame)
    | Returned(op: Op, since: nat, at: nat, reply: Reply)
  {
    /** No call is under way. */
    predicate Rests() {
      Idle? || Returned?
    }
  }

  /** A completed call, in the order in which the locks were released. */
  datatype Entry = Entry(thread: Tid, op: Op, reply: Reply, since: nat)

  /** `writer` is the thread that is pending or inside as a writer, `readers` those inside as readers. */
  datatype Config = Config(
    mem: Mem,
    writer: Option<Tid>,
    readers: set<Tid>,
    threads: seq<Thread>,
    log: seq<Entry>)

  // ---- Steps of one thread ----

  ghost predicate Invokes(c: Config, c': Config, t: Tid) {
    && t < |c.threads| && c.threads[t].Rests()
    && exists op :: c' == c.(threads := c.threads[t := Waiting(op, |c.log|)])
  }

  /** RLock, or the part of Lock that announces the writer. */
  ghost predicate Arrives(c: Config, c': Config, t: Tid) {
    && t < |c.threads| && c.threads[t].Waiting?
    && var op, since := c.threads[t].op, c.threads[t].since;
       if op.Reads() then
         c' == if c.writer == None
               then c.(readers := c.readers + {t}, threads := c.threads[t := Inside(op, since, Enter)])
               else c.(threads := c.threads[t := Blocked(op, since)])
       else
         c.writer == None && c' == c.(writer := Some(t), threads := c.threads[t := Pending(op, since)])
  }

  /** The announced writer goes in when the readers have left. */
  ghost predicate Enters(c: Config, c': Config, t: Tid) {
    && t < |c.threads| && c.threads[t].Pending? && c.readers == {}
    && c' == c.(threads := c.threads[t := Inside(c.threads[t].op, c.threads[t].since, Enter)])
  }

  ghost predicate Runs(c: Config, c': Config, t: Tid) {
    && t < |c.threads| && c.threads[t].Inside?
    && t < |c'.threads| && c'.threads[t].Inside?
    && var th := c.threads[t];
       && Statement(th.op, th.frame, c.mem, c'.threads[t].frame, c'.mem)
       && c' == c.(mem := c'.mem, threads := c.threads[t := th.(frame := c'.threads[t].frame)])
  }

  /** A writer that unlocks lets all blocked readers in. */
  function LetIn(threads: seq<Thread>): (r: seq<Thread>)
    ensures |r| == |threads|
    ensures forall u | 0 <= u < |threads| ::
      r[u] == if threads[u].Blocked? then Inside(threads[u].op, threads[u].since, Enter) else threads[u]
  {
    if threads == [] then []
    else
      var th := threads[|threads| - 1];
      LetIn(threads[..|threads| - 1]) + [if th.Blocked? then Inside(th.op, th.since, Enter) else th]
  }

  function BlockedReaders(threads: seq<Thread>): set<Tid> {
    set u | 0 <= u < |threads| && threads[u].Blocked?
  }

  ghost predicate Unlocks(c: Config, c': Config, t: Tid) {
    && t < |c.threads| && c.threads[t].Inside? && c.threads[t].frame.Return?
    && var th := c.threads[t];
       var threads := c.threads[t := Returned(th.op, th.since, |c.log|, th.frame.reply)];
       var log := c.log + [Entry(t, th.op, th.frame.reply, th.since)];
       c' == if th.op.Reads()
             then Config(c.mem, c.writer, c.readers - {t}, threads, log)
             else Config(c.mem, None, BlockedReaders(c.threads), LetIn(threads), log)
  }

  /** The thread, announced or inside, goes in, executes a statement or unlocks. */
  ghost predicate Acts(c: Config, c': Config, t: Tid) {
    Enters(c, c', t) || Runs(c, c', t) || Unlocks(c, c', t)
  }

  /** The thread goes on with the call it has made. */
  ghost predicate Proceeds(c: Config, c': Config, t: Tid) {
    Arrives(c, c', t) || Acts(c, c', t)
  }

  /** Some thread makes a call or goes on. */
  ghost predicate Follows(c: Config, c': Config) {
    exists t: Tid :: Invokes(c, c', t) || Proceeds(c, c', t)
  }

  /** A store with a free lock and idle threads, and then configurations one after the other. */
  datatype Trace = Start(mem: Mem, threads: nat) | Then(before: Trace, now: Config)
  {
    function Last(): Config {
      match this
      case Start(mem, threads) => Config(mem, None, {}, seq(threads, _ => Idle), [])
      case Then(_, now) => now
    }

    /** The fields refine `q` at the start, and any thread may make each step. */
    ghost predicate From(q: Queue) {
      match this
      case Start(mem, _) => Refines(mem, q)
      case Then(before, now) => before.From(q) && Follows(before.Last(), now)
    }
  }

  // ---- The sequential order ----

  /** The abstract store after the first `n` logged calls, each applied atomically. */
  ghost function After(q: Queue, log: seq<Entry>, n: nat): (r: Queue)
    requires WellFormed(q) && n <= |log|
    ensures WellFormed(r)
  {
    if n == 0 then q else Apply(After(q, log, n - 1), log[n - 1].op).0
  }

  /** Later calls do not matter. */
  lemma {:induction false} AfterPrefix(q: Queue, log: seq<Entry>, more: seq<Entry>, n: nat)
    requires WellFormed(q) && n <= |log|
    ensures After(q, log + more, n) == After(q, log, n)
  {
    if n > 0 {
      AfterPrefix(q, log, more, n - 1);
    }
  }

  lemma AfterSnoc(q: Queue, log: seq<Entry>, log': seq<Entry>, e: Entry)
    requires WellFormed(q) && log' == log + [e]
    ensures After(q, log', |log'|) == Apply(After(q, log, |log|), e.op).0
  {
    AfterPrefix(q, log, [e], |log|);
  }

  /** Those of the first `n` logged calls that can change the store. */
  function Writes(log: seq<Entry>, n: nat): seq<Op>
    requires n <= |log|
  {
    if n == 0 then []
    else if log[n - 1].op.Reads() then Writes(log, n - 1)
    else Writes(log, n - 1) + [log[n - 1].op]
  }

  /** The store after the log is that after a sequence of calls, so what holds of all callers holds of it. */
  lemma {:induction false} AfterIsReplay(q: Queue, log: seq<Entry>, n: nat)
    requires WellFormed(q) && n <= |log|
    ensures After(q, log, n) == Replay(q, Writes(log, n))
  {
    if n > 0 {
      AfterIsReplay(q, log, n - 1);
      if !log[n - 1].op.Reads() {
        assert Writes(log, n)[..|Writes(log, n - 1)|] == Writes(log, n - 1);
      }
    }
  }

  /** Each logged reply is that of the atomic method in the log's order, and no call is logged before it is made. */
  ghost predicate Sequential(q: Queue, log: seq<Entry>)
    requires WellFormed(q)
  {
    forall p | 0 <= p < |log| :: InPlace(q, log, p)
  }

  ghost predicate InPlace(q: Queue, log: seq<Entry>, p: nat)
    requires WellFormed(q) && p < |log|
  {
    log[p].since <= p && log[p].reply == Apply(After(q, log, p), log[p].op).1
  }

  // ---- The lock ----

  ghost predicate WriterInside(c: Config) {
    c.writer.Some? && c.writer.value < |c.threads| && c.threads[c.writer.value].Inside?
  }

  /** What the lock says of one thread. */
  ghost predicate HoldsLock(c: Config, t: Tid)
    requires t < |c.threads|
  {
    match c.threads[t]
    case Blocked(op, _) => op.Reads() && c.writer.Some?
    case Pending(op, _) => !op.Reads() && c.writer == Some(t)
    case Inside(op, _, _) => if op.Reads() then t in c.readers && !WriterInside(c) else c.writer == Some(t)
    case _ => true
  }

  /** Readers are inside; the writer is pending, or inside and alone. */
  ghost predicate LockOk(c: Config) {
    && (forall t | 0 <= t < |c.threads| :: HoldsLock(c, t))
    && (forall t | t in c.readers :: t < |c.threads| && c.threads[t].Inside? && c.threads[t].op.Reads())
    && (c.writer.Some? ==>
          && c.writer.value < |c.threads|
          && var th := c.threads[c.writer.value];
             (th.Pending? || th.Inside?) && !th.op.Reads() && (th.Inside? ==> c.readers == {}))
  }

  lemma WriterUnlockKeepsLock(c: Config, c': Config, t: Tid)
    requires LockOk(c) && Unlocks(c, c', t) && !c.threads[t].op.Reads()
    ensures LockOk(c')
  {
    assert HoldsLock(c, t);
    forall u | 0 <= u < |c'.threads|
      ensures HoldsLock(c', u)
    {
      assert HoldsLock(c, u);
    }
    forall u | u in c'.readers
      ensures u < |c'.threads| && c'.threads[u].Inside? && c'.threads[u].op.Reads()
    {
      assert HoldsLock(c, u);
    }
  }

  lemma StepKeepsLock(c: Config, c': Config, t: Tid)
    requires LockOk(c) && (Invokes(c, c', t) || Proceeds(c, c', t))
    ensures LockOk(c')
  {
    assert HoldsLock(c, t);
    if Unlocks(c, c', t) && !c.threads[t].op.Reads() {
      WriterUnlockKeepsLock(c, c', t);
    } else {
      forall u | 0 <= u < |c'.threads|
        ensures HoldsLock(c', u)
      {
        assert HoldsLock(c, u);
      }
    }
  }

  /** While a writer is inside, no other thread is. */
  lemma WriterIsAlone(c: Config, t: Tid, u: Tid)
    requires LockOk(c) && t < |c.threads| && u < |c.threads| && t != u
    requires c.threads[t].Inside? && c.threads[u].Inside?
    ensures c.threads[t].op.Reads()
  {
    assert HoldsLock(c, t) && HoldsLock(c, u);
  }

  // ---- The data ----

  /** What thread `t` relies on; `q` is the abstract store after the log. */
  ghost predicate Knows(t: Tid, th: Thread, q: Queue, mem: Mem, log: seq<Entry>)
    requires WellFormed(q)
  {
    match th
    case Idle => true
    case Waiting(_, since) => since <= |log|
    case Blocked(_, since) => since <= |log|
    case Pending(_, since) => since <= |log|
    case Inside(op, since, frame) => since <= |log| && FrameOk(op, q, frame, mem)
    case Returned(op, since, at, reply) => at < |log| && log[at] == Entry(t, op, reply, since)
  }

  ghost predicate ConfigOk(q: Queue, c: Config)
    requires WellFormed(q)
  {
    && LockOk(c) && Sequential(q, c.log)
    && (!WriterInside(c) ==> Refines(c.mem, After(q, c.log, |c.log|)))
    && forall t | 0 <= t < |c.threads| :: Knows(t, c.threads[t], After(q, c.log, |c.log|), c.mem, c.log)
  }

  /** A step that leaves the fields and the log alone concerns only its own thread. */
  lemma OnlyOneThreadMoves(q: Queue, c: Config, c': Config, t: Tid)
    requires WellFormed(q) && ConfigOk(q, c) && LockOk(c') && c'.mem == c.mem && c'.log == c.log
    requires t < |c.threads| && |c'.threads| == |c.threads|
    requires forall u | 0 <= u < |c.threads| && u != t :: c'.threads[u] == c.threads[u]
    requires !WriterInside(c') ==> !WriterInside(c)
    requires Knows(t, c'.threads[t], After(q, c.log, |c.log|), c.mem, c.log)
    ensures ConfigOk(q, c')
  {
  }

  lemma ArriveKeeps(q: Queue, c: Config, c': Config, t: Tid)
    requires WellFormed(q) && ConfigOk(q, c) && LockOk(c') && (Arrives(c, c', t) || Enters(c, c', t))
    ensures ConfigOk(q, c')
  {
    assert HoldsLock(c, t) && Knows(t, c.threads[t], After(q, c.log, |c.log|), c.mem, c.log);
    OnlyOneThreadMoves(q, c, c', t);
  }

  lemma RunKeeps(q: Queue, c: Config, c': Config, t: Tid)
    requires WellFormed(q) && ConfigOk(q, c) && LockOk(c') && Runs(c, c', t)
    ensures ConfigOk(q, c')
  {
    var th, now := c.threads[t], After(q, c.log, |c.log|);
    assert HoldsLock(c, t) && Knows(t, th, now, c.mem, c.log);
    StatementKeeps(th.op, now, th.frame, c.mem, c'.threads[t].frame, c'.mem);
    if th.op.Reads() {
      ReadersDoNotWrite(th.op, th.frame, c.mem, c'.threads[t].frame, c'.mem);
      OnlyOneThreadMoves(q, c, c', t);
    } else {
      forall u | 0 <= u < |c'.threads|
        ensures Knows(u, c'.threads[u], now, c'.mem, c'.log)
      {
        assert Knows(u, c.threads[u], now, c.mem, c.log);
        if u != t && c.threads[u].Inside? {
          WriterIsAlone(c, t, u);
        }
      }
    }
  }

  /** A reader's statements leave the fields alone. */
  lemma ReadersDoNotWrite(op: Op, f: Frame, m: Mem, f': Frame, m': Mem)
    requires op.Reads() && Statement(op, f, m, f', m')
    ensures m' == m
  {
  }

  /** The call that returns takes its place at the end of the sequential order. */
  lemma LogGrows(q: Queue, log: seq<Entry>, e: Entry)
    requires WellFormed(q) && Sequential(q, log)
    requires e.since <= |log| && e.reply == Apply(After(q, log, |log|), e.op).1
    ensures Sequential(q, log + [e])
  {
    var log' := log + [e];
    forall p | 0 <= p < |log'|
      ensures InPlace(q, log', p)
    {
      AfterPrefix(q, log, [e], p);
      if p < |log| {
        assert InPlace(q, log, p);
      }
    }
  }

  lemma UnlockedStore(q: Queue, c: Config, c': Config, t: Tid)
    requires WellFormed(q) && ConfigOk(q, c) && Unlocks(c, c', t)
    ensures Sequential(q, c'.log) && Refines(c'.mem, After(q, c'.log, |c'.log|))
    ensures c.threads[t].op.Reads() ==> After(q, c'.log, |c'.log|) == After(q, c.log, |c.log|)
    ensures c.threads[t].since <= |c.log|
  {
    var th := c.threads[t];
    var e := Entry(t, th.op, th.frame.reply, th.since);
    assert Knows(t, th, After(q, c.log, |c.log|), c.mem, c.log);
    LogGrows(q, c.log, e);
    AfterSnoc(q, c.log, c'.log, e);
  }

  lemma UnlockKeeps(q: Queue, c: Config, c': Config, t: Tid)
    requires WellFormed(q) && ConfigOk(q, c) && LockOk(c') && Unlocks(c, c', t)
    ensures ConfigOk(q, c')
  {
    UnlockedStore(q, c, c', t);
    var now, now' := After(q, c.log, |c.log|), After(q, c'.log, |c'.log|);
    forall u | 0 <= u < |c'.threads|
      ensures Knows(u, c'.threads[u], now', c'.mem, c'.log)
    {
      if u != t {
        OtherAfterUnlock(c, c', t, u, now, now');
      }
    }
  }

  /** Another thread after an unlock: let in, if it was blocked and `t` a writer. */
  lemma OtherAfterUnlock(c: Config, c': Config, t: Tid, u: Tid, q: Queue, q': Queue)
    requires WellFormed(q) && WellFormed(q') && LockOk(c) && Unlocks(c, c', t) && u < |c.threads| && u != t
    requires Knows(u, c.threads[u], q, c.mem, c.log) && Refines(c.mem, q')
    requires c.threads[t].op.Reads() ==> q' == q
    ensures u < |c'.threads| && Knows(u, c'.threads[u], q', c'.mem, c'.log)
  {
    assert HoldsLock(c, t) && HoldsLock(c, u);
  }

  lemma ProceedKeeps(q: Queue, c: Config, c': Config, t: Tid)
    requires WellFormed(q) && ConfigOk(q, c) && LockOk(c') && Proceeds(c, c', t)
    ensures ConfigOk(q, c')
  {
    if Arrives(c, c', t) || Enters(c, c', t) {
      ArriveKeeps(q, c, c', t);
    } else if Runs(c, c', t) {
      RunKeeps(q, c, c', t);
    } else {
      UnlockKeeps(q, c, c', t);
    }
  }

  lemma InvokeKeeps(q: Queue, c: Config, c': Config, t: Tid)
    requires WellFormed(q) && ConfigOk(q, c) && LockOk(c') && Invokes(c, c', t)
    ensures ConfigOk(q, c')
  {
    OnlyOneThreadMoves(q, c, c', t);
  }

  lemma MoveKeeps(q: Queue, c: Config, c': Config)
    requires WellFormed(q) && ConfigOk(q, c) && Follows(c, c')
    ensures ConfigOk(q, c')
  {
    var t: Tid :| Invokes(c, c', t) || Proceeds(c, c', t);
    StepKeepsLock(c, c', t);
    if Invokes(c, c', t) {
      InvokeKeeps(q, c, c', t);
    } else {
      ProceedKeeps(q, c, c', t);
    }
  }

  lemma StartIsOk(q: Queue, m: Mem, n: nat)
    requires WellFormed(q) && Refines(m, q)
    ensures ConfigOk(q, Start(m, n).Last())
  {
  }

  lemma {:induction false} TraceIsOk(q: Queue, trace: Trace)
    requires WellFormed(q) && trace.From(q)
    ensures ConfigOk(q, trace.Last())
  {
    match trace
    case Start(mem, threads) => StartIsOk(q, mem, threads);
    case Then(before, now) =>
      TraceIsOk(q, before);
      MoveKeeps(q, before.Last(), now);
  }

  // ---- The theorems ----

  /**
   * Linearizability: in every interleaving, each returned reply is that of an atomic call placed after all calls
   * that had returned when it was made, and when no writer is inside the fields are those after the logged calls.
   */
  lemma EveryInterleavingIsSequential(q: Queue, trace: Trace)
    requires WellFormed(q) && trace.From(q)
    ensures var c := trace.Last();
      && (!WriterInside(c) ==> Refines(c.mem, After(q, c.log, |c.log|)))
      && Sequential(q, c.log)
      && (forall t | 0 <= t < |c.threads| && c.threads[t].Returned? ::
            var th := c.threads[t];
            th.at < |c.log| && c.log[th.at] == Entry(t, th.op, th.reply, th.since))
  {
    TraceIsOk(q, trace);
    var c := trace.Last();
    forall t | 0 <= t < |c.threads| && c.threads[t].Returned?
      ensures var th := c.threads[t];
        th.at < |c.log| && c.log[th.at] == Entry(t, th.op, th.reply, th.since)
    {
      assert Knows(t, c.threads[t], After(q, c.log, |c.log|), c.mem, c.log);
    }
  }

  /** The loop of ListJobs returns the exact jobs of one instant between its call and its return. */
  lemma ListJobsIsASnapshot(q: Queue, trace: Trace, t: Tid)
    requires WellFormed(q) && trace.From(q)
    requires var c := trace.Last(); t < |c.threads| && c.threads[t].Returned? && c.threads[t].op == OpList
    ensures var c := trace.Last();
      exists p :: c.threads[t].since <= p < |c.log| && c.threads[t].reply == JobList(After(q, c.log, p).jobs)
  {
    EveryInterleavingIsSequential(q, trace);
    var c := trace.Last();
    var p := c.threads[t].at;
    assert InPlace(q, c.log, p);
  }

  /** Two threads are never both inside unless both only read: no one sees a half-done write. */
  lemma WritersAreAlone(q: Queue, trace: Trace, t: Tid, u: Tid)
    requires WellFormed(q) && trace.From(q) && t != u
    requires var c := trace.Last();
      t < |c.threads| && c.threads[t].Inside? && u < |c.threads| && c.threads[u].Inside?
    ensures var c := trace.Last(); c.threads[t].op.Reads() && c.threads[u].op.Reads()
  {
    TraceIsOk(q, trace);
    WriterIsAlone(trace.Last(), t, u);
    WriterIsAlone(trace.Last(), u, t);
  }
}
