/** The parallel check queue (CCheckQueue of src/checkqueue.h) as a state machine. A step is one critical
    section of Loop, one check run outside the lock, a call of Add or Wait, or a spurious wake-up; a
    check is represented by its outcome. Thread 0 is the master. */
module CheckQueue {
  import opened Basics

  type Tid = int
  const MASTER: Tid := 0

  datatype Thread =
    | Outside                                     // the master, when not in Wait
    | Entering                                    // in Loop, before the first lock
    | Asleep                                      // waiting on its condition variable
    | Awake                                       // woken, not yet holding the lock again
    | Working(checks: seq<bool>, fOk: bool, nNow: nat)  // `checks` of its batch of nNow are still to run

  datatype Session = Session(checks: seq<bool>, result: bool)

  /** `session` are the checks added since the last Wait returned, `past` the sessions before. */
  datatype State = State(
    queue: seq<bool>, nIdle: int, nTotal: int, fAllOk: bool, nTodo: int, nBatchSize: nat,
    threads: map<Tid, Thread>, session: seq<bool>, past: seq<Session>)

  /* ---- Sums over threads ---- */

  datatype Kind = Taken | Idle | Active | Rank

  function Weight(k: Kind, th: Thread): nat {
    match k
    case Taken => if th.Working? then th.nNow else 0
    case Idle => if th.Asleep? || th.Awake? then 1 else 0
    case Active => if th.Asleep? || th.Awake? || th.Working? then 1 else 0
    case Rank => if th.Working? then |th.checks| + 2 else if th.Awake? || th.Entering? then 1 else 0
  }

  ghost function Total(k: Kind, ts: map<Tid, Thread>): nat
    decreases |ts|
  {
    if |ts| == 0 then 0 else Weight(k, ts[Pick(ts)]) + Total(k, ts - {Pick(ts)})
  }

  ghost function Pick(ts: map<Tid, Thread>): (t: Tid)
    requires |ts| != 0
    ensures t in ts
  {
    SomeKey(ts);
    var t :| t in ts;
    t
  }

  lemma {:induction false} TotalWithout(k: Kind, ts: map<Tid, Thread>, t: Tid)
    requires t in ts
    ensures Total(k, ts) == Weight(k, ts[t]) + Total(k, ts - {t})
    decreases |ts|
  {
    var p := Pick(ts);
    if p != t {
      TotalWithout(k, ts - {p}, t);
      TotalWithout(k, ts - {t}, p);
      assert ts - {p} - {t} == ts - {t} - {p};
    }
  }

  lemma TotalUpdate(k: Kind, ts: map<Tid, Thread>, t: Tid, th: Thread)
    requires t in ts
    ensures Total(k, ts[t := th]) == Total(k, ts) - Weight(k, ts[t]) + Weight(k, th)
  {
    hide Total;
    TotalWithout(k, ts, t);
    TotalWithout(k, ts[t := th], t);
    assert ts[t := th] - {t} == ts - {t};
  }

  lemma {:induction false} TotalSame(k: Kind, a: map<Tid, Thread>, b: map<Tid, Thread>)
    requires a.Keys == b.Keys && forall t | t in a :: Weight(k, a[t]) == Weight(k, b[t])
    ensures Total(k, a) == Total(k, b)
    decreases |a|
  {
    if |a| != 0 {
      var t := Pick(a);
      TotalWithout(k, b, t);
      assert (a - {t}).Keys == (b - {t}).Keys;
      TotalSame(k, a - {t}, b - {t});
    } else {
      assert b.Keys == {};
    }
  }

  lemma {:induction false} SomePositive(k: Kind, ts: map<Tid, Thread>)
    requires Total(k, ts) > 0
    ensures exists t :: t in ts && Weight(k, ts[t]) > 0
    decreases |ts|
  {
    var t := Pick(ts);
    if Weight(k, ts[t]) == 0 {
      SomePositive(k, ts - {t});
      var u :| u in ts - {t} && Weight(k, (ts - {t})[u]) > 0;
      assert u in ts && Weight(k, ts[u]) > 0;
    }
  }

  lemma AtMostTotal(k: Kind, ts: map<Tid, Thread>, t: Tid)
    requires t in ts
    ensures Weight(k, ts[t]) <= Total(k, ts)
  {
    TotalWithout(k, ts, t);
  }

  /* ---- Steps ---- */

  function AllTrue(s: seq<bool>): bool { forall i | 0 <= i < |s| :: s[i] }

  predicate Init(s: State) {
    && s.queue == [] && s.nIdle == 0 && s.nTotal == 0 && s.fAllOk && s.nTodo == 0
    && MASTER in s.threads && s.threads[MASTER] == Outside
    && (forall t | t in s.threads && t != MASTER :: s.threads[t] == Entering)
    && s.session == [] && s.past == []
  }

  /** How many checks to take: a share of the queue, but at least one and at most nBatchSize. (The
      divisor is always positive, since nTotal and nIdle count threads.) */
  function BatchSize(queue: nat, nBatchSize: nat, nTotal: int, nIdle: int): (n: nat)
    requires queue > 0
    ensures 1 <= n <= queue && (nBatchSize > 0 ==> n <= nBatchSize)
  {
    var divisor := nTotal + nIdle + 1;
    var share := if divisor <= 0 then queue else queue / divisor;
    var n := if nBatchSize < share then nBatchSize else share;
    assert 0 <= share <= queue by {
      if divisor > 0 {
        DivBound(queue, divisor);
      }
    }
    if n < 1 then 1 else n
  }

  lemma DivBound(x: nat, d: int)
    requires d > 0
    ensures 0 <= x / d <= x
  {
    Quotient(x, d);
    Scale(x / d, d);
  }

  lemma Quotient(x: nat, d: int)
    requires d > 0
    ensures d * (x / d) <= x && x / d >= 0
  {
  }

  lemma Scale(q: int, d: int)
    requires q >= 0 && d >= 1
    ensures q <= d * q
  {
  }

  /** The last `n` elements, last first: the queue is used as a stack. */
  function Popped(queue: seq<bool>, n: nat): seq<bool>
    requires n <= |queue|
  {
    seq(n, i requires 0 <= i < n => queue[|queue| - 1 - i])
  }

  predicate CanLock(s: State, t: Tid) {
    t in s.threads &&
    match s.threads[t]
    case Entering => true
    case Awake => true
    case Working(checks, _, _) => checks == []
    case _ => false
  }

  /** The clean-up at the start of the critical section, and leaving the wait. */
  function CleanUp(s: State, t: Tid): State
    requires CanLock(s, t)
  {
    match s.threads[t]
    case Entering => s.(nTotal := s.nTotal + 1)
    case Awake => s.(nIdle := s.nIdle - 1)
    case Working(_, fOk, nNow) =>
      var s1 := s.(fAllOk := s.fAllOk && fOk, nTodo := s.nTodo - nNow);
      if s1.nTodo == 0 && t != MASTER && MASTER in s.threads && s.threads[MASTER] == Asleep
      then s1.(threads := s1.threads[MASTER := Awake]) else s1
  }

  /** The rest of the critical section: take a batch, return, or wait. */
  function Proceed(s: State, t: Tid): State
    requires t in s.threads
  {
    if s.queue != [] then
      var n := BatchSize(|s.queue|, s.nBatchSize, s.nTotal, s.nIdle);
      s.(queue := s.queue[..|s.queue| - n], threads := s.threads[t := Working(Popped(s.queue, n), s.fAllOk, n)])
    else if t == MASTER && s.nTodo == 0 then
      s.(nTotal := s.nTotal - 1, fAllOk := true, threads := s.threads[t := Outside],
         session := [], past := s.past + [Session(s.session, s.fAllOk)])
    else
      s.(nIdle := s.nIdle + 1, threads := s.threads[t := Asleep])
  }

  function Section(s: State, t: Tid): State
    requires CanLock(s, t)
  {
    Proceed(CleanUp(s, t), t)
  }

  /** One round of the loop that runs the batch: after a failure, checks are skipped. */
  function Execute(s: State, t: Tid): State
    requires t in s.threads && s.threads[t].Working? && s.threads[t].checks != []
  {
    var w := s.threads[t];
    s.(threads := s.threads[t := Working(w.checks[1..], w.fOk && w.checks[0], w.nNow)])
  }

  function Woken(ts: map<Tid, Thread>, who: set<Tid>): map<Tid, Thread> {
    map t | t in ts :: if t in who && t != MASTER && ts[t] == Asleep then Awake else ts[t]
  }

  /** Add wakes some sleeping worker for one check and all of them for more. */
  predicate Notifies(ts: map<Tid, Thread>, n: nat, who: set<Tid>) {
    if n == 0 then who == {}
    else if n == 1 then |who| <= 1 && ((exists t :: t in ts && t != MASTER && ts[t] == Asleep) ==>
                                       exists t :: t in who && t in ts && t != MASTER && ts[t] == Asleep)
    else forall t | t in ts && t != MASTER && ts[t] == Asleep :: t in who
  }

  ghost predicate AddStep(s: State, s': State) {
    MASTER in s.threads && s.threads[MASTER] == Outside &&
    exists checks, who :: Notifies(s.threads, |checks|, who) && s' == Adding(s, checks, who)
  }

  function Adding(s: State, checks: seq<bool>, who: set<Tid>): State {
    s.(queue := s.queue + checks, nTodo := s.nTodo + |checks|, threads := Woken(s.threads, who),
        session := s.session + checks)
  }

  predicate WaitStep(s: State, s': State) {
    MASTER in s.threads && s.threads[MASTER] == Outside && s' == s.(threads := s.threads[MASTER := Entering])
  }

  /** The steps the protocol itself takes. */
  ghost predicate ProperStep(s: State, s': State) {
    || (exists t :: CanLock(s, t) && s' == Section(s, t))
    || (exists t :: t in s.threads && s.threads[t].Working? && s.threads[t].checks != [] && s' == Execute(s, t))
  }

  ghost predicate SpuriousStep(s: State, s': State) {
    exists t :: t in s.threads && s.threads[t] == Asleep && s' == s.(threads := s.threads[t := Awake])
  }

  ghost predicate Next(s: State, s': State) {
    ProperStep(s, s') || SpuriousStep(s, s') || AddStep(s, s') || WaitStep(s, s')
  }

  /* ---- The invariant ---- */

  ghost predicate ThreadTrue(th: Thread) { th.Working? ==> th.fOk && AllTrue(th.checks) }

  ghost predicate PendingTrue(ts: map<Tid, Thread>) { forall t | t in ts :: ThreadTrue(ts[t]) }

  lemma PendingSplit(ts: map<Tid, Thread>, t: Tid)
    requires t in ts
    ensures PendingTrue(ts) <==> ThreadTrue(ts[t]) && PendingTrue(ts - {t})
  {
    if ThreadTrue(ts[t]) && PendingTrue(ts - {t}) {
      forall u | u in ts
        ensures ThreadTrue(ts[u])
      {
        assert u != t ==> u in ts - {t};
      }
    }
  }

  lemma PendingSame(a: map<Tid, Thread>, b: map<Tid, Thread>)
    requires a.Keys == b.Keys && forall t | t in a :: ThreadTrue(a[t]) == ThreadTrue(b[t])
    ensures PendingTrue(a) <==> PendingTrue(b)
  {
  }

  ghost predicate ThreadOk(th: Thread) { th.Working? ==> th.nNow >= 1 && |th.checks| <= th.nNow }

  /** The counters count: checks queued or in flight, waiting threads, threads in Loop. */
  ghost predicate Counts(s: State) {
    && s.nTodo == |s.queue| + Total(Taken, s.threads)
    && s.nIdle == Total(Idle, s.threads)
    && s.nTotal == Total(Active, s.threads)
    && forall t | t in s.threads :: ThreadOk(s.threads[t])
  }

  /** Nothing false has been lost: the session is all true iff what is known and what is pending is. */
  ghost predicate Verdict(s: State) {
    AllTrue(s.session) <==> s.fAllOk && AllTrue(s.queue) && PendingTrue(s.threads)
  }

  /** The master sleeps only while the queue is empty and others still hold checks. */
  ghost predicate MasterOk(s: State) {
    MASTER in s.threads && (s.threads[MASTER] == Asleep ==> s.queue == [] && s.nTodo > 0)
  }

  /** Every Wait so far returned whether all checks of its session are true. */
  ghost predicate PastOk(s: State) {
    forall i | 0 <= i < |s.past| :: s.past[i].result == AllTrue(s.past[i].checks)
  }

  ghost predicate Inv(s: State) { Counts(s) && Verdict(s) && MasterOk(s) && PastOk(s) }

  lemma InitInv(s: State)
    requires Init(s)
    ensures Inv(s)
  {
    var none := map t | t in s.threads :: Outside;
    TotalNone(Taken, none);
    TotalNone(Idle, none);
    TotalNone(Active, none);
    TotalSame(Taken, s.threads, none);
    TotalSame(Idle, s.threads, none);
    TotalSame(Active, s.threads, none);
  }

  lemma {:induction false} TotalNone(k: Kind, ts: map<Tid, Thread>)
    requires forall t | t in ts :: Weight(k, ts[t]) == 0
    ensures Total(k, ts) == 0
    decreases |ts|
  {
    if |ts| != 0 {
      TotalNone(k, ts - {Pick(ts)});
    }
  }

  /** The invariant inside the critical section of thread `t`, which counts as active only. */
  ghost predicate Locked(s: State, t: Tid) {
    var others := s.threads - {t};
    && t in s.threads && MASTER in s.threads
    && s.nTodo == |s.queue| + Total(Taken, others)
    && s.nIdle == Total(Idle, others)
    && s.nTotal == Total(Active, others) + 1
    && (forall u | u in others :: ThreadOk(others[u]))
    && (AllTrue(s.session) <==> s.fAllOk && AllTrue(s.queue) && PendingTrue(others))
    && (t != MASTER && s.threads[MASTER] == Asleep ==> s.queue == [] && s.nTodo > 0)
    && PastOk(s)
  }

  lemma CleanUpLocks(s: State, t: Tid)
    requires Inv(s) && CanLock(s, t)
    ensures Locked(CleanUp(s, t), t)
  {
    hide Total, PendingTrue;
    var s1 := CleanUp(s, t);
    var before, after := s.threads - {t}, s1.threads - {t};
    TotalWithout(Taken, s.threads, t);
    TotalWithout(Idle, s.threads, t);
    TotalWithout(Active, s.threads, t);
    PendingSplit(s.threads, t);
    assert after.Keys == before.Keys;
    TotalSame(Taken, before, after);
    TotalSame(Idle, before, after);
    TotalSame(Active, before, after);
    PendingSame(before, after);
  }

  lemma PoppedTrue(queue: seq<bool>, n: nat)
    requires n <= |queue|
    ensures AllTrue(queue) <==> AllTrue(queue[..|queue| - n]) && AllTrue(Popped(queue, n))
  {
    var rest, top := queue[..|queue| - n], Popped(queue, n);
    if AllTrue(rest) && AllTrue(top) {
      forall i | 0 <= i < |queue|
        ensures queue[i]
      {
        if i < |rest| {
          assert rest[i];
        } else {
          assert top[|queue| - 1 - i];
        }
      }
    }
  }

  /** Nothing is in flight once nTodo is zero. */
  lemma {:induction false} NothingInFlight(ts: map<Tid, Thread>)
    requires Total(Taken, ts) == 0 && forall t | t in ts :: ThreadOk(ts[t])
    ensures PendingTrue(ts)
  {
    forall t | t in ts
      ensures ThreadTrue(ts[t])
    {
      AtMostTotal(Taken, ts, t);
    }
  }

  lemma ProceedUnlocks(s: State, t: Tid)
    requires Locked(s, t)
    ensures Inv(Proceed(s, t))
  {
    hide Total, PendingTrue;
    var s1 := Proceed(s, t);
    assert s1.threads - {t} == s.threads - {t};
    TotalWithout(Taken, s1.threads, t);
    TotalWithout(Idle, s1.threads, t);
    TotalWithout(Active, s1.threads, t);
    PendingSplit(s1.threads, t);
    if s.queue != [] {
      PoppedTrue(s.queue, s1.threads[t].nNow);
    } else if t == MASTER && s.nTodo == 0 {
      NothingInFlight(s.threads - {t});
    }
    forall u | u in s1.threads
      ensures ThreadOk(s1.threads[u])
    {
      assert u != t ==> u in s.threads - {t};
    }
  }

  lemma SectionInv(s: State, t: Tid)
    requires Inv(s) && CanLock(s, t)
    ensures Inv(Section(s, t))
  {
    hide *;
    CleanUpLocks(s, t);
    ProceedUnlocks(CleanUp(s, t), t);
    SectionIs(s, t);
  }

  lemma SectionIs(s: State, t: Tid)
    requires CanLock(s, t)
    ensures t in CleanUp(s, t).threads && Section(s, t) == Proceed(CleanUp(s, t), t)
  {
  }

  lemma ExecuteInv(s: State, t: Tid)
    requires Inv(s) && t in s.threads && s.threads[t].Working? && s.threads[t].checks != []
    ensures Inv(Execute(s, t))
  {
    hide Total, PendingTrue;
    var s1, w := Execute(s, t), s.threads[t];
    TotalUpdate(Taken, s.threads, t, s1.threads[t]);
    TotalUpdate(Idle, s.threads, t, s1.threads[t]);
    TotalUpdate(Active, s.threads, t, s1.threads[t]);
    PendingSplit(s.threads, t);
    PendingSplit(s1.threads, t);
    assert s1.threads - {t} == s.threads - {t};
    assert AllTrue(w.checks) <==> w.checks[0] && AllTrue(w.checks[1..]) by {
      assert w.checks == [w.checks[0]] + w.checks[1..];
    }
  }

  /** Wake-ups alone change neither the counts nor the verdict. */
  lemma WakingInv(s: State, ts: map<Tid, Thread>)
    requires Inv(s) && ts.Keys == s.threads.Keys
    requires forall t | t in ts :: ts[t] == s.threads[t] || (s.threads[t] == Asleep && ts[t] == Awake)
    ensures Inv(s.(threads := ts))
  {
    hide Total, PendingTrue;
    TotalSame(Taken, s.threads, ts);
    TotalSame(Idle, s.threads, ts);
    TotalSame(Active, s.threads, ts);
    PendingSame(s.threads, ts);
  }

  lemma AddingInv(s: State, checks: seq<bool>, who: set<Tid>)
    requires Inv(s) && s.threads[MASTER] == Outside
    ensures Inv(Adding(s, checks, who))
  {
    hide Total, PendingTrue;
    WakingInv(s, Woken(s.threads, who));
    ConcatTrue(s.session, checks);
    ConcatTrue(s.queue, checks);
  }

  lemma ConcatTrue(a: seq<bool>, b: seq<bool>)
    ensures AllTrue(a + b) <==> AllTrue(a) && AllTrue(b)
  {
    if AllTrue(a + b) {
      assert forall i | 0 <= i < |a| :: a[i] == (a + b)[i];
      assert forall i | 0 <= i < |b| :: b[i] == (a + b)[|a| + i];
    }
  }

  lemma WaitInv(s: State)
    requires Inv(s) && s.threads[MASTER] == Outside
    ensures Inv(s.(threads := s.threads[MASTER := Entering]))
  {
    hide Total, PendingTrue;
    var ts := s.threads[MASTER := Entering];
    TotalUpdate(Taken, s.threads, MASTER, Entering);
    TotalUpdate(Idle, s.threads, MASTER, Entering);
    TotalUpdate(Active, s.threads, MASTER, Entering);
    PendingSame(s.threads, ts);
  }

  lemma NextInv(s: State, s': State)
    requires Inv(s) && Next(s, s')
    ensures Inv(s')
  {
    hide Inv, Section, Execute, Adding, CanLock;
    InvMaster(s);
    if t :| CanLock(s, t) && s' == Section(s, t) {
      SectionInv(s, t);
    } else if t :| t in s.threads && s.threads[t].Working? && s.threads[t].checks != [] && s' == Execute(s, t) {
      ExecuteInv(s, t);
    } else if SpuriousStep(s, s') {
      WakingInv(s, s'.threads);
    } else if AddStep(s, s') {
      var checks, who :| Notifies(s.threads, |checks|, who) && s' == Adding(s, checks, who);
      AddingInv(s, checks, who);
    } else {
      WaitInv(s);
    }
  }

  lemma InvMaster(s: State)
    requires Inv(s)
    ensures MASTER in s.threads
  {
  }

  /** A finite run: each state follows from the one before. */
  ghost predicate IsRun(run: seq<State>) {
    |run| > 0 && Init(run[0]) && forall i | 0 < i < |run| :: Next(run[i - 1], run[i])
  }

  lemma {:induction false} RunInv(run: seq<State>, i: nat)
    requires IsRun(run) && i < |run|
    ensures Inv(run[i])
    decreases i
  {
    hide Inv, Next, Init;
    if i == 0 {
      InitInv(run[0]);
    } else {
      RunInv(run, i - 1);
      NextInv(run[i - 1], run[i]);
    }
  }

  /** In every run, every Wait that returned did so with true exactly when all checks of its session are
      true, and nTodo is always the number of checks queued or in flight. */
  lemma WaitIsExact(run: seq<State>, i: nat, j: nat)
    requires IsRun(run) && i < |run|
    ensures run[i].nTodo == |run[i].queue| + Total(Taken, run[i].threads)
    ensures j < |run[i].past| ==> run[i].past[j].result == AllTrue(run[i].past[j].checks)
  {
    hide Next, Init, Total;
    RunInv(run, i);
  }

  /** In every run, a sleeping master faces an empty queue and some worker with a batch in hand. */
  lemma MasterNotStranded(run: seq<State>, i: nat)
    requires IsRun(run) && i < |run|
    ensures MASTER in run[i].threads
    ensures run[i].threads[MASTER] == Asleep ==>
              run[i].queue == [] && exists t :: t in run[i].threads && t != MASTER && run[i].threads[t].Working?
  {
    hide Next, Init, Total;
    RunInv(run, i);
    if run[i].threads[MASTER] == Asleep {
      SomePositive(Taken, run[i].threads);
    }
  }

  /* ---- Termination of Wait ---- */

  /** What is left to do: a bound on the steps the protocol can take before it needs new input. */
  ghost function Left(s: State): nat { 3 * |s.queue| + Total(Rank, s.threads) }

  ghost predicate CanStep(s: State) { exists s' :: ProperStep(s, s') }

  ghost predicate InWait(s: State) { MASTER in s.threads && s.threads[MASTER] != Outside }

  /** While the master is in Wait, some thread can go on. */
  lemma Progress(s: State)
    requires Inv(s) && InWait(s)
    ensures CanStep(s)
  {
    hide Total, Section, Execute;
    var m := s.threads[MASTER];
    if m == Asleep {
      SomePositive(Taken, s.threads);
      var t :| t in s.threads && Weight(Taken, s.threads[t]) > 0;
      CanGoOn(s, t);
    } else {
      CanGoOn(s, MASTER);
    }
  }

  lemma CanGoOn(s: State, t: Tid)
    requires t in s.threads && (s.threads[t].Working? || s.threads[t] == Awake || s.threads[t] == Entering)
    ensures CanStep(s)
  {
    hide Section, Execute;
    if s.threads[t].Working? && s.threads[t].checks != [] {
      assert ProperStep(s, Execute(s, t));
    } else {
      assert CanLock(s, t);
      assert ProperStep(s, Section(s, t));
    }
  }

  /** Every step of the protocol leaves less to do. */
  lemma StepsDecrease(s: State, s': State)
    requires ProperStep(s, s')
    ensures Left(s') < Left(s)
  {
    hide Section, Execute, CanLock, Left;
    if t :| CanLock(s, t) && s' == Section(s, t) {
      SectionDecreases(s, t);
    } else {
      var t :| t in s.threads && s.threads[t].Working? && s.threads[t].checks != [] && s' == Execute(s, t);
      ExecuteDecreases(s, t);
    }
  }

  lemma ExecuteDecreases(s: State, t: Tid)
    requires t in s.threads && s.threads[t].Working? && s.threads[t].checks != []
    ensures Left(Execute(s, t)) < Left(s)
  {
    hide Total;
    TotalUpdate(Rank, s.threads, t, Execute(s, t).threads[t]);
  }

  lemma SectionDecreases(s: State, t: Tid)
    requires CanLock(s, t)
    ensures Left(Section(s, t)) < Left(s)
  {
    hide Total;
    var s1 := CleanUp(s, t);
    if s1.threads != s.threads {
      TotalUpdate(Rank, s.threads, MASTER, Awake);
    }
    TotalUpdate(Rank, s1.threads, t, Section(s, t).threads[t]);
  }

  /** A spurious wake-up leaves one step more to do. */
  lemma SpuriousAdds(s: State, s': State)
    requires SpuriousStep(s, s')
    ensures Left(s') <= Left(s) + 1
  {
    hide Total;
    var t :| t in s.threads && s.threads[t] == Asleep && s' == s.(threads := s.threads[t := Awake]);
    TotalUpdate(Rank, s.threads, t, Awake);
  }

  /** A run of the protocol, spurious wake-ups included, while the master stays in Wait. */
  ghost predicate WaitingRun(run: seq<State>) {
    |run| > 0 && Inv(run[0]) && (forall i | 0 <= i < |run| :: InWait(run[i]))
    && forall i | 0 < i < |run| :: ProperStep(run[i - 1], run[i]) || SpuriousStep(run[i - 1], run[i])
  }

  /** How many steps of a run are spurious wake-ups. */
  ghost function WakeUps(run: seq<State>): nat {
    var n := |run|;
    if n <= 1 then 0 else WakeUps(run[..n - 1]) + if ProperStep(run[n - 2], run[n - 1]) then 0 else 1
  }

  /** Wait returns: no such run is longer than what was left to do, but for two steps for each spurious wake-up, and
      none is ever stuck. */
  lemma {:induction false} WaitReturns(run: seq<State>)
    requires WaitingRun(run)
    ensures |run| <= Left(run[0]) + 1 + 2 * WakeUps(run)
    ensures Inv(run[|run| - 1]) && CanStep(run[|run| - 1])
    decreases |run|
  {
    hide Inv, InWait, ProperStep, SpuriousStep, Left, WakeUps;
    var n := |run|;
    if n == 1 {
      Progress(run[0]);
    } else {
      WaitReturns(run[..n - 1]);
      GoesOn(run[n - 2], run[n - 1]);
      NextInv(run[n - 2], run[n - 1]);
      Progress(run[n - 1]);
    }
    DecreasesBy(run);
  }

  lemma GoesOn(s: State, s': State)
    requires ProperStep(s, s') || SpuriousStep(s, s')
    ensures Next(s, s')
  {
  }

  lemma {:induction false} DecreasesBy(run: seq<State>)
    requires WaitingRun(run)
    ensures Left(run[|run| - 1]) + |run| <= Left(run[0]) + 1 + 2 * WakeUps(run)
    decreases |run|
  {
    hide Inv, InWait, ProperStep, SpuriousStep, Left;
    var n := |run|;
    if n > 1 {
      DecreasesBy(run[..n - 1]);
      if ProperStep(run[n - 2], run[n - 1]) {
        StepsDecrease(run[n - 2], run[n - 1]);
      } else {
        SpuriousAdds(run[n - 2], run[n - 1]);
      }
    }
  }
}
