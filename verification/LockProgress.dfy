/** Without new calls every call returns: some thread can always go on, and only boundedly often. */
module LockProgress {
  import opened Wrappers
  import opened JobQueue
  import opened MemoryStore
  import opened Interleaving
  import opened Linearizability

  /** Some thread goes on with the call it has made. */
  ghost predicate GoesOn(c: Config, c': Config) {
    exists t: Tid :: Proceeds(c, c', t)
  }

  // ---- No deadlock ----

  lemma InsideActs(q: Queue, c: Config, t: Tid) returns (c': Config)
    requires WellFormed(q) && ConfigOk(q, c) && t < |c.threads| && c.threads[t].Inside?
    ensures Acts(c, c', t)
  {
    var th := c.threads[t];
    assert Knows(t, th, After(q, c.log, |c.log|), c.mem, c.log);
    if th.frame.Return? {
      var threads := c.threads[t := Returned(th.op, th.since, |c.log|, th.frame.reply)];
      var log := c.log + [Entry(t, th.op, th.frame.reply, th.since)];
      c' := if th.op.Reads()
            then Config(c.mem, c.writer, c.readers - {t}, threads, log)
            else Config(c.mem, None, BlockedReaders(c.threads), LetIn(threads), log);
    } else {
      var f', m' := BodyIsNeverStuck(th.op, After(q, c.log, |c.log|), th.frame, c.mem);
      c' := c.(mem := m', threads := c.threads[t := th.(frame := f')]);
    }
  }

  /** With no writer announced, any thread that waits gets the lock or announces itself. */
  lemma FreeLockIsTaken(c: Config, t: Tid) returns (c': Config)
    requires t < |c.threads| && c.threads[t].Waiting? && c.writer == None
    ensures Arrives(c, c', t)
  {
    var op, since := c.threads[t].op, c.threads[t].since;
    c' := if op.Reads()
          then c.(readers := c.readers + {t}, threads := c.threads[t := Inside(op, since, Enter)])
          else c.(writer := Some(t), threads := c.threads[t := Pending(op, since)]);
  }

  /** While a writer is announced or readers are inside, one of these threads can act. */
  lemma HolderActs(q: Queue, c: Config) returns (t: Tid, c': Config)
    requires WellFormed(q) && ConfigOk(q, c) && (c.writer.Some? || c.readers != {})
    ensures Acts(c, c', t)
  {
    if r :| r in c.readers {
      t := r;
      c' := InsideActs(q, c, t);
    } else {
      t := c.writer.value;
      if c.threads[t].Inside? {
        c' := InsideActs(q, c, t);
      } else {
        c' := c.(threads := c.threads[t := Inside(c.threads[t].op, c.threads[t].since, Enter)]);
      }
    }
  }

  /** While a call is under way, some thread can go on. */
  lemma SomeoneGoesOn(q: Queue, c: Config, t: Tid)
    requires WellFormed(q) && ConfigOk(q, c) && t < |c.threads| && !c.threads[t].Rests()
    ensures exists c' :: GoesOn(c, c')
  {
    assert HoldsLock(c, t);
    if c.writer.Some? || c.readers != {} {
      var u, c' := HolderActs(q, c);
      assert Proceeds(c, c', u);
      assert GoesOn(c, c');
    } else {
      var c' := FreeLockIsTaken(c, t);
      assert Proceeds(c, c', t);
      assert GoesOn(c, c');
    }
  }

  // ---- Every step is paid for ----

  /** A call that adds a job or an agent makes the bodies of up to `n` others longer. */
  function Surcharge(op: Op, n: nat): nat {
    if op.OpCreate? then n else if op.OpRegister? then 2 * n else 0
  }

  function BodyCost(op: Op, f: Frame, m: Mem, n: nat): int {
    StatementsLeft(op, f, m) + 1 + if f.Return? then 0 else Surcharge(op, n)
  }

  /** The steps thread `th` can still make in its call, among `n` threads. */
  function Cost(th: Thread, m: Mem, n: nat): int {
    match th
    case Idle => 0
    case Waiting(op, _) => BodyCost(op, Enter, m, n) + 2
    case Blocked(op, _) => BodyCost(op, Enter, m, n) + 1
    case Pending(op, _) => BodyCost(op, Enter, m, n) + 1
    case Inside(op, _, frame) => BodyCost(op, frame, m, n)
    case Returned(_, _, _, _) => 0
  }

  function Costs(threads: seq<Thread>, m: Mem, n: nat): (costs: seq<int>)
    ensures |costs| == |threads|
    ensures forall t | 0 <= t < |threads| :: costs[t] == Cost(threads[t], m, n)
  {
    seq(|threads|, t requires 0 <= t < |threads| => Cost(threads[t], m, n))
  }

  function Total(costs: seq<int>): int {
    if costs == [] then 0 else Total(costs[..|costs| - 1]) + costs[|costs| - 1]
  }

  /** A bound on the steps of all threads until no call is under way. */
  function Load(c: Config): int {
    Total(Costs(c.threads, c.mem, |c.threads|))
  }

  /** If every other cost grows by at most `d`, all together grow by at most `d` for each. */
  lemma {:induction false} TotalGrowsBy(a: seq<int>, b: seq<int>, t: nat, d: nat)
    requires |a| == |b| && forall u | 0 <= u < |a| && u != t :: b[u] <= a[u] + d
    ensures Total(b) <= Total(a) + d * |a| + if t < |a| then b[t] - a[t] else 0
  {
    if a != [] {
      var k := |a| - 1;
      TotalGrowsBy(a[..k], b[..k], t, d);
      assert d * |a| == d * k + d;
    }
  }

  /** Thread `t` pays for what its step costs the others. */
  lemma LoadFalls(c: Config, c': Config, t: Tid, d: nat)
    requires |c'.threads| == |c.threads| && t < |c.threads|
    requires var n := |c.threads|;
      && (forall u | 0 <= u < n && u != t :: Cost(c'.threads[u], c'.mem, n) <= Cost(c.threads[u], c.mem, n) + d)
      && Cost(c'.threads[t], c'.mem, n) + d * n < Cost(c.threads[t], c.mem, n)
    ensures Load(c') < Load(c)
  {
    var n := |c.threads|;
    TotalGrowsBy(Costs(c.threads, c.mem, n), Costs(c'.threads, c'.mem, n), t, d);
  }

  lemma {:induction false} TotalIsNonnegative(costs: seq<int>)
    requires forall t | 0 <= t < |costs| :: 0 <= costs[t]
    ensures 0 <= Total(costs)
  {
    if costs != [] {
      TotalIsNonnegative(costs[..|costs| - 1]);
    }
  }

  lemma LoadIsNonnegative(q: Queue, c: Config)
    requires WellFormed(q) && ConfigOk(q, c)
    ensures 0 <= Load(c)
  {
    forall t | 0 <= t < |c.threads|
      ensures 0 <= Cost(c.threads[t], c.mem, |c.threads|)
    {
      assert Knows(t, c.threads[t], After(q, c.log, |c.log|), c.mem, c.log);
      if c.threads[t].Inside? {
        StatementsLeftIsNonnegative(c.threads[t].op, After(q, c.log, |c.log|), c.threads[t].frame, c.mem);
      }
    }
    TotalIsNonnegative(Costs(c.threads, c.mem, |c.threads|));
  }

  lemma StatementsLeftIsNonnegative(op: Op, q: Queue, f: Frame, m: Mem)
    requires WellFormed(q) && FrameOk(op, q, f, m)
    ensures 0 <= StatementsLeft(op, f, m)
  {
  }

  /** The two things bodies are longer for. */
  function Growth(m: Mem, m': Mem): int {
    |m'.order| - |m.order| + 2 * (|m'.agents| - |m.agents|)
  }

  lemma WriteSize<K, V>(m: map<K, V>, k: K, v: V)
    ensures |m[k := v]| == if k in m then |m| else |m| + 1
  {
    assert m[k := v].Keys == m.Keys + {k};
    assert |m.Keys| == |m| && |m[k := v].Keys| == |m[k := v]|;
  }

  function Most(op: Op): nat {
    if op.OpCreate? then 1 else if op.OpRegister? then 2 else 0
  }

  lemma SurchargeCovers(op: Op, d: int, n: nat)
    requires 0 <= d <= Most(op)
    ensures d * n <= Surcharge(op, n)
  {
    assert d == 0 || d == 1 || d == 2;
  }

  lemma KnownAgent(op: Op, q: Queue, f: Frame, m: Mem)
    requires WellFormed(q) && FrameOk(op, q, f, m) && (f.WritingAgent? || f.Marking?)
    ensures f.id in m.agents
  {
  }

  /** Only the last write of CreateJob and of RegisterAgent adds to what others have to walk. */
  lemma WhoGrows(op: Op, f: Frame, m: Mem, f': Frame, m': Mem)
    requires Statement(op, f, m, f', m')
    requires f.WritingAgent? || f.Marking? ==> f.id in m.agents
    ensures Growth(m, m') == 0 || f'.Return?
    ensures !f.Return? && 0 <= Growth(m, m') <= Most(op)
  {
    if op.OpRegister? {
      WriteSize(m.agents, op.agent.id, op.agent);
    } else if f.WritingAgent? || f.Marking? {
      WriteSize(m.agents, f.id, f.agent);
    }
  }

  /** The writer's surcharge covers what its last statement costs the others. */
  lemma StatementIsPaidFor(op: Op, q: Queue, f: Frame, m: Mem, f': Frame, m': Mem, n: nat)
    requires WellFormed(q) && FrameOk(op, q, f, m) && Statement(op, f, m, f', m')
    ensures 0 <= Growth(m, m') && (op.Reads() ==> Growth(m, m') == 0)
    ensures BodyCost(op, f', m', n) + Growth(m, m') * n < BodyCost(op, f, m, n)
  {
    BodyEnds(op, q, f, m, f', m');
    if f.WritingAgent? || f.Marking? {
      KnownAgent(op, q, f, m);
    }
    WhoGrows(op, f, m, f', m');
    SurchargeCovers(op, Growth(m, m'), n);
  }

  lemma OthersPayFor(c: Config, c': Config, t: Tid, u: Tid)
    requires LockOk(c) && t < |c.threads| && u < |c.threads| && u != t && c.threads[t].Inside?
    requires |c'.threads| == |c.threads| && c'.threads[u] == c.threads[u]
    requires 0 <= Growth(c.mem, c'.mem) && (c.threads[t].op.Reads() ==> c'.mem == c.mem)
    ensures Cost(c'.threads[u], c'.mem, |c.threads|) <= Cost(c.threads[u], c.mem, |c.threads|) + Growth(c.mem, c'.mem)
  {
    if c.threads[u].Inside? && !c.threads[t].op.Reads() {
      WriterIsAlone(c, t, u);
    }
  }

  lemma RunIsPaidFor(q: Queue, c: Config, c': Config, t: Tid)
    requires WellFormed(q) && ConfigOk(q, c) && Runs(c, c', t)
    ensures Load(c') < Load(c)
  {
    var th, f' := c.threads[t], c'.threads[t].frame;
    assert Knows(t, th, After(q, c.log, |c.log|), c.mem, c.log);
    StatementIsPaidFor(th.op, After(q, c.log, |c.log|), th.frame, c.mem, f', c'.mem, |c.threads|);
    if th.op.Reads() {
      ReadersDoNotWrite(th.op, th.frame, c.mem, f', c'.mem);
    }
    AllPayFor(c, c', t, f');
  }

  lemma AllPayFor(c: Config, c': Config, t: Tid, f': Frame)
    requires LockOk(c) && t < |c.threads| && c.threads[t].Inside?
    requires c'.threads == c.threads[t := c.threads[t].(frame := f')]
    requires var th, d, n := c.threads[t], Growth(c.mem, c'.mem), |c.threads|;
      && 0 <= d && (th.op.Reads() ==> c'.mem == c.mem)
      && BodyCost(th.op, f', c'.mem, n) + d * n < BodyCost(th.op, th.frame, c.mem, n)
    ensures Load(c') < Load(c)
  {
    var n, d := |c.threads|, Growth(c.mem, c'.mem);
    forall u | 0 <= u < n && u != t
      ensures Cost(c'.threads[u], c'.mem, n) <= Cost(c.threads[u], c.mem, n) + d
    {
      OthersPayFor(c, c', t, u);
    }
    LoadFalls(c, c', t, d);
  }

  lemma ArrivalIsPaidFor(c: Config, c': Config, t: Tid)
    requires Arrives(c, c', t) || Enters(c, c', t)
    ensures Load(c') < Load(c)
  {
    LoadFalls(c, c', t, 0);
  }

  lemma UnlockIsPaidFor(c: Config, c': Config, t: Tid)
    requires Unlocks(c, c', t)
    ensures Load(c') < Load(c)
  {
    LoadFalls(c, c', t, 0);
  }

  lemma StepIsPaidFor(q: Queue, c: Config, c': Config, t: Tid)
    requires WellFormed(q) && ConfigOk(q, c) && Proceeds(c, c', t)
    ensures Load(c') < Load(c)
  {
    if Runs(c, c', t) {
      RunIsPaidFor(q, c, c', t);
    } else if Unlocks(c, c', t) {
      UnlockIsPaidFor(c, c', t);
    } else {
      ArrivalIsPaidFor(c, c', t);
    }
  }

  // ---- The theorem ----

  /**
   * From any configuration of any trace, the threads can go on at most `Load` times without a new call being made,
   * and they can go on exactly as long as some call has not returned.
   */
  lemma EveryCallReturns(q: Queue, trace: Trace, run: seq<Config>)
    requires WellFormed(q) && trace.From(q) && run != [] && run[0] == trace.Last()
    requires forall i | 0 <= i < |run| - 1 :: GoesOn(run[i], run[i + 1])
    ensures |run| - 1 <= Load(trace.Last())
    ensures var c := run[|run| - 1];
      (exists c' :: GoesOn(c, c')) <==> exists t :: 0 <= t < |c.threads| && !c.threads[t].Rests()
  {
    TraceIsOk(q, trace);
    var c := RunIsPaid(q, run);
    if t :| 0 <= t < |c.threads| && !c.threads[t].Rests() {
      SomeoneGoesOn(q, c, t);
    } else {
      NooneGoesOn(c);
    }
  }

  lemma NooneGoesOn(c: Config)
    requires forall t | 0 <= t < |c.threads| :: c.threads[t].Rests()
    ensures !exists c' :: GoesOn(c, c')
  {
  }

  lemma {:induction false} RunIsPaid(q: Queue, run: seq<Config>) returns (c: Config)
    requires WellFormed(q) && run != [] && ConfigOk(q, run[0])
    requires forall i | 0 <= i < |run| - 1 :: GoesOn(run[i], run[i + 1])
    ensures c == run[|run| - 1] && ConfigOk(q, c) && 0 <= Load(c) <= Load(run[0]) - (|run| - 1)
  {
    var n := |run| - 1;
    c := run[n];
    if n > 0 {
      var before := RunIsPaid(q, run[..n]);
      assert GoesOn(run[n - 1], run[n]);
      var t: Tid :| Proceeds(before, c, t);
      assert Follows(before, c);
      MoveKeeps(q, before, c);
      StepIsPaidFor(q, before, c, t);
    }
    LoadIsNonnegative(q, c);
  }
}
