/** The parallel check queue as a system of steps: one master, any number of workers,
    and every critical section, wake-up or single check evaluation one step. */
module CheckQueue {
  import opened Collections

  /** A check, and what it evaluates to. */
  datatype Check = Check(id: nat, good: bool)

  /** Where a thread is. Thread 0 is the master; only it is ever Outside the loop. */
  datatype Thread =
    | Outside
    | Entering                                          // called, but has not had the lock yet
    | Locked                                            // inside the critical section
    | Waiting(notified: bool)                           // in cond.wait
    | Working(batch: seq<Check>, next: nat, ok: bool)   // running its batch without the lock

  /** `added`, `done` and `last` record the history: checks added and completed since the last
      Wait returned, and what that Wait returned for which checks. */
  datatype State = State(
    queue: seq<Check>, nIdle: int, nTotal: int, allOk: bool, nTodo: int, threads: seq<Thread>,
    added: multiset<Check>, done: multiset<Check>, last: Option<(bool, multiset<Check>)>)

  const MASTER := 0

  function Initial(workers: nat): State {
    State([], 0, 0, true, 0, [Outside] + seq(workers, i => Entering), multiset{}, multiset{}, None)
  }

  // ---- the steps ----

  function Min(a: int, b: int): int { if a < b then a else b }
  function Max(a: int, b: int): int { if a < b then b else a }

  /** How many checks to take: a share that leaves work for the other threads, at least one
      and at most `batchSize`. The thread count is never negative. */
  function BatchNow(s: State, batchSize: nat): (n: nat)
    requires s.queue != []
    ensures 1 <= n <= |s.queue| && (n <= batchSize || n == 1)
  {
    var sharers := s.nTotal + s.nIdle + 1;
    if sharers <= 0 then 1 else
    QuotientBound(|s.queue|, sharers);
    Max(1, Min(batchSize, |s.queue| / sharers))
  }

  lemma {:induction false} ProductBound(q: nat, d: nat)
    requires d > 0
    ensures q <= q * d
  {
    if d > 1 {
      ProductBound(q, d - 1);
    }
  }

  lemma QuotientBound(a: nat, d: nat)
    requires d > 0
    ensures a / d <= a
  {
    ProductBound(a / d, d);
    assert a / d * d <= a;
  }

  /** The last n of the queue, last first, as the swaps from the back leave them. */
  function FromBack(queue: seq<Check>, n: nat): seq<Check>
    requires n <= |queue|
  {
    if n == 0 then [] else [queue[|queue| - 1]] + FromBack(queue[..|queue| - 1], n - 1)
  }

  /** notify_one on the master's condition. */
  function NotifyMaster(threads: seq<Thread>): seq<Thread> {
    if |threads| > 0 && threads[MASTER].Waiting? then threads[MASTER := Waiting(true)] else threads
  }

  function NotifyWorkers(threads: seq<Thread>): seq<Thread> {
    seq(|threads|, i requires 0 <= i < |threads| =>
      if i != MASTER && threads[i].Waiting? then Waiting(true) else threads[i])
  }

  /** notify_one on the workers' condition: `w` is the worker the system picks, if any waits. */
  function NotifyWorker(threads: seq<Thread>, w: nat): seq<Thread> {
    if MASTER < w < |threads| && threads[w].Waiting? then threads[w := Waiting(true)] else threads
  }

  /** The clean-up at the top of the critical section, for a first entry or a finished batch. */
  function CleanUp(s: State, th: nat): State
    requires th < |s.threads|
    requires s.threads[th].Entering? || s.threads[th].Working?
  {
    match s.threads[th]
    case Entering => s.(nTotal := s.nTotal + 1, threads := s.threads[th := Locked])
    case Working(batch, _, ok) =>
      var left := s.nTodo - |batch|;
      var threads := s.threads[th := Locked];
      s.(allOk := s.allOk && ok, nTodo := left, done := s.done + multiset(batch),
         threads := if left == 0 && th != MASTER then NotifyMaster(threads) else threads)
  }

  /** The rest of the critical section: return, wait, or take a batch. */
  function Settle(s: State, th: nat, batchSize: nat): State
    requires th < |s.threads|
  {
    if s.queue == [] then
      if th == MASTER && s.nTodo == 0 then
        s.(nTotal := s.nTotal - 1, allOk := true, threads := s.threads[th := Outside],
           last := Some((s.allOk, s.added)), added := multiset{}, done := multiset{})
      else
        s.(nIdle := s.nIdle + 1, threads := s.threads[th := Waiting(false)])
    else
      var n := BatchNow(s, batchSize);
      s.(queue := s.queue[..|s.queue| - n], threads := s.threads[th := Working(FromBack(s.queue, n), 0, s.allOk)])
  }

  function Evaluate(t: Thread): Thread
    requires t.Working? && t.next < |t.batch|
  {
    t.(next := t.next + 1, ok := if t.ok then t.batch[t.next].good else false)
  }

  datatype Step =
    | CallAdd(checks: seq<Check>, woken: nat)   // the master adds a batch of checks
    | CallWait                                  // the master calls Wait
    | Enter(th: nat)                            // a thread gets the lock
    | Wake(th: nat)                             // cond.wait returns, notified or not
    | Run(th: nat)                              // a thread evaluates one check of its batch

  predicate Enabled(s: State, step: Step) {
    match step
    case CallAdd(_, _) => |s.threads| > 0 && s.threads[MASTER].Outside?
    case CallWait => |s.threads| > 0 && s.threads[MASTER].Outside?
    case Enter(th) =>
      th < |s.threads| && (s.threads[th].Entering? || (s.threads[th].Working? &&
        s.threads[th].next == |s.threads[th].batch|))
    case Wake(th) => th < |s.threads| && s.threads[th].Waiting?
    case Run(th) => th < |s.threads| && s.threads[th].Working? && s.threads[th].next < |s.threads[th].batch|
  }

  function Apply(s: State, step: Step, batchSize: nat): State
    requires Enabled(s, step)
  {
    match step
    case CallAdd(checks, woken) =>
      s.(queue := s.queue + checks, nTodo := s.nTodo + |checks|, added := s.added + multiset(checks),
         threads := if |checks| == 1 then NotifyWorker(s.threads, woken)
                    else if |checks| > 1 then NotifyWorkers(s.threads) else s.threads)
    case CallWait => s.(threads := s.threads[MASTER := Entering])
    case Enter(th) => Settle(CleanUp(s, th), th, batchSize)
    case Wake(th) => Settle(Woken(s, th), th, batchSize)
    case Run(th) => s.(threads := s.threads[th := Evaluate(s.threads[th])])
  }

  function Woken(s: State, th: nat): State
    requires th < |s.threads|
  {
    s.(nIdle := s.nIdle - 1, threads := s.threads[th := Locked])
  }

  // ---- counting over threads ----

  function Idle(t: Thread): nat { if t.Waiting? then 1 else 0 }
  function Inside(t: Thread): nat { if t.Outside? || t.Entering? then 0 else 1 }
  function Held(t: Thread): nat { if t.Working? then |t.batch| else 0 }

  function Sum(f: Thread -> nat, threads: seq<Thread>): nat {
    if threads == [] then 0 else f(threads[0]) + Sum(f, threads[1..])
  }

  lemma {:induction false} SumUpdate(f: Thread -> nat, threads: seq<Thread>, i: nat, t: Thread)
    requires i < |threads|
    ensures Sum(f, threads[i := t]) + f(threads[i]) == Sum(f, threads) + f(t)
  {
    if i == 0 {
      assert threads[i := t][1..] == threads[1..];
    } else {
      assert threads[i := t][1..] == threads[1..][i - 1 := t];
      SumUpdate(f, threads[1..], i - 1, t);
    }
  }

  /** All checks in the threads' batches. */
  function Bag(threads: seq<Thread>): multiset<Check> {
    if threads == [] then multiset{} else BatchOf(threads[0]) + Bag(threads[1..])
  }

  function BatchOf(t: Thread): multiset<Check> {
    if t.Working? then multiset(t.batch) else multiset{}
  }

  lemma {:induction false} BagUpdate(threads: seq<Thread>, i: nat, t: Thread)
    requires i < |threads|
    ensures Bag(threads[i := t]) + BatchOf(threads[i]) == Bag(threads) + BatchOf(t)
  {
    hide BatchOf;
    var after := threads[i := t];
    if i == 0 {
      assert after[1..] == threads[1..];
      Exchange(BatchOf(t), BatchOf(threads[0]), Bag(threads[1..]));
    } else {
      assert after[1..] == threads[1..][i - 1 := t];
      BagUpdate(threads[1..], i - 1, t);
      AddBoth(BatchOf(threads[0]), Bag(after[1..]), BatchOf(threads[i]), Bag(threads[1..]), BatchOf(t));
    }
  }

  lemma Exchange<T>(a: multiset<T>, b: multiset<T>, c: multiset<T>)
    ensures (a + c) + b == (b + c) + a
  {
  }

  lemma AddBoth<T>(h: multiset<T>, a: multiset<T>, b: multiset<T>, c: multiset<T>, d: multiset<T>)
    requires a + b == c + d
    ensures (h + a) + b == (h + c) + d
  {
    forall x ensures ((h + a) + b)[x] == ((h + c) + d)[x]
    {
      assert (a + b)[x] == (c + d)[x];
    }
  }

  lemma {:induction false} BagSize(threads: seq<Thread>)
    ensures |Bag(threads)| == Sum(Held, threads)
  {
    if threads != [] {
      BagSize(threads[1..]);
    }
  }

  // ---- the invariant ----

  ghost predicate AllGood(checks: multiset<Check>) {
    forall c | c in checks :: c.good
  }

  /** A worker's verdict so far is right: good only if its checks so far are, bad only if some
      check of this round is. */
  ghost predicate ThreadOk(t: Thread, th: nat, added: multiset<Check>) {
    && (t.Outside? ==> th == MASTER)
    && (t.Working? ==> && 0 < |t.batch| && t.next <= |t.batch|
                       && (t.ok ==> forall i | 0 <= i < t.next :: t.batch[i].good)
                       && (!t.ok ==> !AllGood(added)))
  }

  ghost predicate ThreadsOk(threads: seq<Thread>, added: multiset<Check>) {
    |threads| > 0 && forall th | 0 <= th < |threads| :: ThreadOk(threads[th], th, added)
  }

  /** The counters are exact, and no check is lost or duplicated. */
  ghost predicate Counted(s: State) {
    && s.nIdle == Sum(Idle, s.threads) && s.nTotal == Sum(Inside, s.threads)
    && s.nTodo == |s.queue| + Sum(Held, s.threads)
    && s.added == s.done + multiset(s.queue) + Bag(s.threads)
  }

  /** The verdict of this round is right so far, and what the last Wait returned was the truth. */
  ghost predicate VerdictOk(s: State) {
    && (s.allOk ==> AllGood(s.done)) && (!s.allOk ==> !AllGood(s.added))
    && (s.last.Some? ==> (s.last.value.0 <==> AllGood(s.last.value.1)))
  }

  /** A master waiting without a notification has something to wait for. */
  ghost predicate MasterOk(s: State) {
    |s.threads| > 0 && s.threads[MASTER].Waiting? ==> s.queue == [] && (!s.threads[MASTER].notified ==> s.nTodo > 0)
  }

  ghost predicate Inv(s: State) {
    ThreadsOk(s.threads, s.added) && Counted(s) && VerdictOk(s) && MasterOk(s)
  }

  // ---- every step keeps it ----

  /** Replacing one thread that holds no batch by another changes only the head counts. */
  lemma Replaced(threads: seq<Thread>, i: nat, t: Thread)
    requires i < |threads|
    ensures var u := threads[i := t];
            && Sum(Idle, u) == Sum(Idle, threads) - Idle(threads[i]) + Idle(t)
            && Sum(Inside, u) == Sum(Inside, threads) - Inside(threads[i]) + Inside(t)
            && Sum(Held, u) == Sum(Held, threads) - Held(threads[i]) + Held(t)
            && (!threads[i].Working? && !t.Working? ==> Bag(u) == Bag(threads))
            && (threads[i].Working? && !t.Working? ==> Bag(threads) == multiset(threads[i].batch) + Bag(u))
            && (!threads[i].Working? && t.Working? ==> Bag(u) == Bag(threads) + multiset(t.batch))
  {
    hide Sum, Bag;
    SumUpdate(Idle, threads, i, t);
    SumUpdate(Inside, threads, i, t);
    SumUpdate(Held, threads, i, t);
    BagUpdate(threads, i, t);
    Balance(Bag(threads[i := t]), BatchOf(threads[i]), Bag(threads), BatchOf(t));
  }

  lemma Balance<T>(a: multiset<T>, b: multiset<T>, c: multiset<T>, d: multiset<T>)
    requires a + b == c + d
    ensures b == multiset{} ==> a == c + d
    ensures d == multiset{} ==> c == b + a
    ensures b == multiset{} && d == multiset{} ==> a == c
  {
    forall x ensures a[x] + b[x] == c[x] + d[x]
    {
      assert (a + b)[x] == (c + d)[x];
    }
    if d == multiset{} {
      forall x ensures c[x] == (b + a)[x]
      {
        assert a[x] + b[x] == c[x] + d[x];
      }
    }
  }

  lemma NotifiedMaster(threads: seq<Thread>)
    ensures var u := NotifyMaster(threads);
            && |u| == |threads| && Sum(Idle, u) == Sum(Idle, threads) && Sum(Inside, u) == Sum(Inside, threads)
            && Sum(Held, u) == Sum(Held, threads) && Bag(u) == Bag(threads)
            && (forall i | 0 <= i < |u| ::
                 u[i] == threads[i] || (u[i] == Waiting(true) && threads[i].Waiting? && i == MASTER))
            && (|u| > 0 ==> u[MASTER] != Waiting(false))
  {
    if |threads| > 0 && threads[MASTER].Waiting? {
      Replaced(threads, MASTER, Waiting(true));
    }
  }

  lemma EnterKeeps(s: State, th: nat)
    requires Inv(s) && Enabled(s, Enter(th)) && s.threads[th].Entering?
    ensures Inv(CleanUp(s, th))
  {
    hide Sum, Bag, AllGood;
    Replaced(s.threads, th, Locked);
    assert ThreadsOk(s.threads[th := Locked], s.added);
  }

  /** The threads after a finished batch: the worker locked, the master perhaps notified. */
  lemma FinishThreads(s: State, th: nat)
    requires ThreadsOk(s.threads, s.added) && Enabled(s, Enter(th)) && s.threads[th].Working?
    ensures var u := CleanUp(s, th).threads;
            && |u| == |s.threads| && ThreadsOk(u, s.added) && u[th] == Locked
            && Sum(Idle, u) == Sum(Idle, s.threads) && Sum(Inside, u) == Sum(Inside, s.threads)
            && Sum(Held, u) == Sum(Held, s.threads) - |s.threads[th].batch|
            && Bag(s.threads) == multiset(s.threads[th].batch) + Bag(u)
  {
    hide Sum, Bag, AllGood;
    var mid := s.threads[th := Locked];
    Replaced(s.threads, th, Locked);
    NotifiedMaster(mid);
    forall i | 0 <= i < |mid| ensures ThreadOk(CleanUp(s, th).threads[i], i, s.added)
    {
      assert ThreadOk(s.threads[i], i, s.added);
    }
  }

  lemma FinishCounted(s: State, th: nat)
    requires Inv(s) && Enabled(s, Enter(th)) && s.threads[th].Working?
    ensures Counted(CleanUp(s, th))
  {
    hide Sum, Bag, AllGood, NotifyMaster, ThreadOk;
    FinishThreads(s, th);
    var u := CleanUp(s, th);
    Moved(s.done, multiset(s.threads[th].batch), multiset(s.queue), Bag(u.threads));
  }

  lemma Moved<T>(done: multiset<T>, batch: multiset<T>, queue: multiset<T>, bag: multiset<T>)
    ensures done + queue + (batch + bag) == (done + batch) + queue + bag
  {
  }

  lemma FinishVerdict(s: State, th: nat)
    requires Inv(s) && Enabled(s, Enter(th)) && s.threads[th].Working?
    ensures VerdictOk(CleanUp(s, th))
  {
    hide Sum, Bag, NotifyMaster;
    var t := s.threads[th];
    assert ThreadOk(t, th, s.added);
    if s.allOk && t.ok {
      forall c | c in s.done + multiset(t.batch) ensures c.good
      {
        assert c in s.done || c in t.batch;
      }
    }
  }

  lemma FinishMaster(s: State, th: nat)
    requires Inv(s) && Enabled(s, Enter(th)) && s.threads[th].Working?
    ensures MasterOk(CleanUp(s, th))
  {
    hide Sum, Bag, AllGood;
    FinishCounted(s, th);
    NotifiedMaster(s.threads[th := Locked]);
  }

  lemma CleanUpKeeps(s: State, th: nat)
    requires Inv(s) && Enabled(s, Enter(th))
    ensures Inv(CleanUp(s, th)) && CleanUp(s, th).threads[th] == Locked && |CleanUp(s, th).threads| == |s.threads|
  {
    hide Sum, Bag, AllGood, ThreadOk, Counted, VerdictOk, MasterOk, NotifyMaster;
    if s.threads[th].Working? {
      FinishThreads(s, th);
      FinishCounted(s, th);
      FinishVerdict(s, th);
      FinishMaster(s, th);
    } else {
      EnterKeeps(s, th);
    }
  }

  lemma WakeKeeps(s: State, th: nat)
    requires Inv(s) && Enabled(s, Wake(th))
    ensures Inv(Woken(s, th)) && th < |Woken(s, th).threads| && Woken(s, th).threads[th] == Locked
  {
    hide Sum, Bag, AllGood;
    Replaced(s.threads, th, Locked);
    assert ThreadsOk(Woken(s, th).threads, s.added);
  }

  lemma {:induction false} FromBackSplits(queue: seq<Check>, n: nat)
    requires n <= |queue|
    ensures |FromBack(queue, n)| == n
    ensures multiset(queue) == multiset(queue[..|queue| - n]) + multiset(FromBack(queue, n))
  {
    if n == 0 {
      assert queue[..|queue|] == queue;
    } else {
      var q, x := queue[..|queue| - 1], queue[|queue| - 1];
      FromBackSplits(q, n - 1);
      assert queue == q + [x];
      assert q[..|q| - (n - 1)] == queue[..|queue| - n];
      OneMore(q, x, multiset(queue[..|queue| - n]), FromBack(q, n - 1));
    }
  }

  lemma OneMore<T>(q: seq<T>, x: T, left: multiset<T>, taken: seq<T>)
    requires multiset(q) == left + multiset(taken)
    ensures multiset(q + [x]) == left + multiset([x] + taken)
  {
    assert multiset(q + [x]) == multiset(q) + multiset{x};
    assert multiset([x] + taken) == multiset{x} + multiset(taken);
  }

  lemma SettleKeeps(s: State, th: nat, batchSize: nat)
    requires Inv(s) && th < |s.threads| && s.threads[th] == Locked
    ensures Inv(Settle(s, th, batchSize))
  {
    hide Inv, Settle;
    assert |s.threads| > 0;
    if s.queue == [] {
      if th == MASTER && s.nTodo == 0 {
        ReturnKeeps(s, batchSize);
      } else {
        WaitKeeps(s, th, batchSize);
      }
    } else {
      TakeKeeps(s, th, batchSize);
    }
  }

  lemma WaitKeeps(s: State, th: nat, batchSize: nat)
    requires Inv(s) && th < |s.threads| && s.threads[th] == Locked && s.queue == [] && !(th == MASTER && s.nTodo == 0)
    ensures Inv(Settle(s, th, batchSize))
  {
    hide Sum, Bag, AllGood;
    Replaced(s.threads, th, Waiting(false));
    assert ThreadsOk(Settle(s, th, batchSize).threads, s.added);
  }

  /** A new batch starts with the verdict so far. */
  lemma TakeKeeps(s: State, th: nat, batchSize: nat)
    requires Inv(s) && th < |s.threads| && s.threads[th] == Locked && s.queue != []
    ensures Inv(Settle(s, th, batchSize))
  {
    hide Sum, Bag, AllGood, FromBack, BatchNow;
    var n := BatchNow(s, batchSize);
    FromBackSplits(s.queue, n);
    var t := Working(FromBack(s.queue, n), 0, s.allOk);
    Replaced(s.threads, th, t);
    var u := Settle(s, th, batchSize);
    assert u.threads == s.threads[th := t];
    assert u.added == u.done + multiset(u.queue) + Bag(u.threads);
    TakenThreadsOk(s, th, t);
  }

  lemma TakenThreadsOk(s: State, th: nat, t: Thread)
    requires ThreadsOk(s.threads, s.added) && th < |s.threads| && VerdictOk(s)
    requires t.Working? && |t.batch| > 0 && t.next == 0 && t.ok == s.allOk
    ensures ThreadsOk(s.threads[th := t], s.added)
  {
  }

  /** When nothing is left to do, the verdict is about exactly the checks that were added. */
  lemma ReturnKeeps(s: State, batchSize: nat)
    requires Inv(s) && s.threads[MASTER] == Locked && s.queue == [] && s.nTodo == 0
    ensures Inv(Settle(s, MASTER, batchSize))
    ensures s.allOk <==> AllGood(s.added)
  {
    hide Sum, Bag;
    Replaced(s.threads, MASTER, Outside);
    BagSize(s.threads);
    assert Bag(s.threads) == multiset{};
    assert s.added == s.done;
    NothingHeld(s.threads);
    var u := Settle(s, MASTER, batchSize);
    forall th | 0 <= th < |u.threads| ensures ThreadOk(u.threads[th], th, u.added)
    {
      assert ThreadOk(s.threads[th], th, s.added);
    }
  }

  /** With no check held, no thread has a batch. */
  lemma {:induction false} NothingHeld(threads: seq<Thread>)
    requires Sum(Held, threads) == 0
    ensures forall i | 0 <= i < |threads| && threads[i].Working? :: |threads[i].batch| == 0
  {
    if threads != [] {
      NothingHeld(threads[1..]);
      forall i | 0 <= i < |threads| && threads[i].Working? ensures |threads[i].batch| == 0
      {
        if i > 0 {
          assert threads[i] == threads[1..][i - 1];
        }
      }
    }
  }

  lemma {:induction false} SameSums(f: Thread -> nat, a: seq<Thread>, b: seq<Thread>)
    requires |a| == |b| && forall i | 0 <= i < |a| :: f(a[i]) == f(b[i])
    ensures Sum(f, a) == Sum(f, b)
  {
    if a != [] {
      forall i | 0 <= i < |a[1..]| ensures f(a[1..][i]) == f(b[1..][i]) {}
      SameSums(f, a[1..], b[1..]);
    }
  }

  lemma {:induction false} SameBags(a: seq<Thread>, b: seq<Thread>)
    requires |a| == |b| && forall i | 0 <= i < |a| :: BatchOf(a[i]) == BatchOf(b[i])
    ensures Bag(a) == Bag(b)
  {
    if a != [] {
      forall i | 0 <= i < |a[1..]| ensures BatchOf(a[1..][i]) == BatchOf(b[1..][i]) {}
      SameBags(a[1..], b[1..]);
    }
  }

  lemma NotifiedWorkers(threads: seq<Thread>, u: seq<Thread>, woken: nat)
    requires u == threads || u == NotifyWorker(threads, woken) || u == NotifyWorkers(threads)
    ensures |u| == |threads| && Sum(Idle, u) == Sum(Idle, threads) && Sum(Inside, u) == Sum(Inside, threads)
    ensures Sum(Held, u) == Sum(Held, threads) && Bag(u) == Bag(threads)
    ensures forall i | 0 <= i < |u| :: u[i] == threads[i] || (u[i].Waiting? && threads[i].Waiting? && i != MASTER)
  {
    forall i | 0 <= i < |threads| ensures u[i] == threads[i] || (u[i].Waiting? && threads[i].Waiting? && i != MASTER) {}
    SameSums(Idle, u, threads);
    SameSums(Inside, u, threads);
    SameSums(Held, u, threads);
    SameBags(u, threads);
  }

  /** Adding checks may notify workers and changes no thread otherwise. */
  lemma AddKeeps(s: State, checks: seq<Check>, woken: nat, batchSize: nat)
    requires Inv(s) && Enabled(s, CallAdd(checks, woken))
    ensures Inv(Apply(s, CallAdd(checks, woken), batchSize))
  {
    hide Sum, Bag, NotifyWorker, NotifyWorkers;
    var u := Apply(s, CallAdd(checks, woken), batchSize);
    NotifiedWorkers(s.threads, u.threads, woken);
    assert forall c | c in s.added :: c in u.added;
    forall i | 0 <= i < |u.threads| ensures ThreadOk(u.threads[i], i, u.added)
    {
      assert ThreadOk(s.threads[i], i, s.added);
    }
    assert multiset(u.queue) == multiset(s.queue) + multiset(checks);
  }

  /** Evaluating a check changes no count and no batch. */
  lemma EvaluatedCounts(threads: seq<Thread>, th: nat)
    requires th < |threads| && threads[th].Working? && threads[th].next < |threads[th].batch|
    ensures var u := threads[th := Evaluate(threads[th])];
            && Sum(Idle, u) == Sum(Idle, threads) && Sum(Inside, u) == Sum(Inside, threads)
            && Sum(Held, u) == Sum(Held, threads) && Bag(u) == Bag(threads)
  {
    hide Sum, Bag;
    var t' := Evaluate(threads[th]);
    SumUpdate(Idle, threads, th, t');
    SumUpdate(Inside, threads, th, t');
    SumUpdate(Held, threads, th, t');
    BagUpdate(threads, th, t');
    SameAdded(Bag(threads[th := t']), Bag(threads), BatchOf(t'));
  }

  lemma SameAdded<T>(a: multiset<T>, b: multiset<T>, c: multiset<T>)
    requires a + c == b + c
    ensures a == b
  {
    forall x ensures a[x] == b[x]
    {
      assert (a + c)[x] == (b + c)[x];
    }
  }

  lemma EvaluatedOk(t: Thread, th: nat, added: multiset<Check>)
    requires t.Working? && t.next < |t.batch| && ThreadOk(t, th, added) && (!t.batch[t.next].good ==> !AllGood(added))
    ensures ThreadOk(Evaluate(t), th, added)
  {
    hide AllGood;
  }

  lemma RunKeeps(s: State, th: nat, batchSize: nat)
    requires Inv(s) && Enabled(s, Run(th))
    ensures Inv(Apply(s, Run(th), batchSize))
  {
    hide Sum, Bag, AllGood, Evaluate;
    var t := s.threads[th];
    EvaluatedCounts(s.threads, th);
    assert ThreadOk(t, th, s.added);
    if !t.batch[t.next].good {
      FailedCheckWasAdded(s, th);
    }
    EvaluatedOk(t, th, s.added);
    EvaluatedIs(t);
    hide ThreadOk;
    assert ThreadsOk(s.threads[th := Evaluate(t)], s.added);
  }

  lemma EvaluatedIs(t: Thread)
    requires t.Working? && t.next < |t.batch|
    ensures Evaluate(t).Working?
  {
  }

  /** A check in a batch is one of the checks added this round. */
  lemma FailedCheckWasAdded(s: State, th: nat)
    requires Inv(s) && Enabled(s, Run(th)) && !s.threads[th].batch[s.threads[th].next].good
    ensures !AllGood(s.added)
  {
    var t := s.threads[th];
    var c := t.batch[t.next];
    BagUpdate(s.threads, th, Locked);
    assert c in BatchOf(t);
    assert (Bag(s.threads[th := Locked]) + BatchOf(t))[c] == (Bag(s.threads) + BatchOf(Locked))[c];
    assert c in s.added;
  }

  lemma CallWaitKeeps(s: State)
    requires Inv(s) && Enabled(s, CallWait)
    ensures Inv(s.(threads := s.threads[MASTER := Entering]))
  {
    hide Sum, Bag, AllGood;
    Replaced(s.threads, MASTER, Entering);
    assert ThreadsOk(s.threads[MASTER := Entering], s.added);
  }

  lemma ApplyKeeps(s: State, step: Step, batchSize: nat)
    requires Inv(s) && Enabled(s, step)
    ensures Inv(Apply(s, step, batchSize))
  {
    hide Inv, Settle, CleanUp, Woken;
    match step
    case CallAdd(checks, woken) => AddKeeps(s, checks, woken, batchSize);
    case CallWait => CallWaitKeeps(s);
    case Enter(th) =>
      CleanUpKeeps(s, th);
      SettleKeeps(CleanUp(s, th), th, batchSize);
    case Wake(th) =>
      WakeKeeps(s, th);
      SettleKeeps(Woken(s, th), th, batchSize);
    case Run(th) => RunKeeps(s, th, batchSize);
  }

  lemma {:induction false} InitialInv(workers: nat)
    ensures Inv(Initial(workers))
  {
    var s := Initial(workers);
    NoneInside(s.threads);
    assert forall th | 0 <= th < |s.threads| :: ThreadOk(s.threads[th], th, s.added);
  }

  lemma {:induction false} NoneInside(threads: seq<Thread>)
    requires forall i | 0 <= i < |threads| :: threads[i].Outside? || threads[i].Entering?
    ensures Sum(Idle, threads) == 0 && Sum(Inside, threads) == 0 && Sum(Held, threads) == 0 &&
            Bag(threads) == multiset{}
  {
    if threads != [] {
      NoneInside(threads[1..]);
    }
  }

  // ---- whole runs ----

  ghost predicate Execution(states: seq<State>, steps: seq<Step>, workers: nat, batchSize: nat) {
    && |states| == |steps| + 1 && states[0] == Initial(workers)
    && forall i | 0 <= i < |steps| ::
         Enabled(states[i], steps[i]) && states[i + 1] == Apply(states[i], steps[i], batchSize)
  }

  /** Between steps no thread is inside the critical section. */
  ghost predicate NoneLocked(threads: seq<Thread>) {
    forall th | 0 <= th < |threads| :: !threads[th].Locked?
  }

  lemma SettleUnlocks(s: State, th: nat, batchSize: nat)
    requires th < |s.threads| && forall i | 0 <= i < |s.threads| && i != th :: !s.threads[i].Locked?
    ensures NoneLocked(Settle(s, th, batchSize).threads)
  {
  }

  lemma ApplyUnlocks(s: State, step: Step, batchSize: nat)
    requires Enabled(s, step) && NoneLocked(s.threads)
    ensures NoneLocked(Apply(s, step, batchSize).threads)
  {
    hide Settle;
    match step
    case Enter(th) => SettleUnlocks(CleanUp(s, th), th, batchSize);
    case Wake(th) => SettleUnlocks(Woken(s, th), th, batchSize);
    case _ =>
  }

  /** In every interleaving, every reachable state has the invariant. */
  lemma {:induction false} EveryRun(states: seq<State>, steps: seq<Step>, workers: nat, batchSize: nat, i: nat)
    requires Execution(states, steps, workers, batchSize) && i <= |steps|
    ensures Inv(states[i]) && NoneLocked(states[i].threads)
  {
    if i == 0 {
      InitialInv(workers);
    } else {
      EveryRun(states, steps, workers, batchSize, i - 1);
      assert states[i - 1 + 1] == Apply(states[i - 1], steps[i - 1], batchSize);
      ApplyKeeps(states[i - 1], steps[i - 1], batchSize);
      ApplyUnlocks(states[i - 1], steps[i - 1], batchSize);
    }
  }

  /** The master's Wait returns in this step. */
  ghost predicate Returns(states: seq<State>, i: nat)
    requires i + 1 < |states| && |states[i].threads| > 0 && |states[i + 1].threads| > 0
  {
    !states[i].threads[MASTER].Outside? && states[i + 1].threads[MASTER].Outside?
  }

  /** The checks handed to Add since the last time Wait returned, read off the steps alone. */
  ghost function AddedSince(states: seq<State>, steps: seq<Step>, i: nat): multiset<Check>
    requires |states| == |steps| + 1 && i <= |steps| && forall s | s in states :: |s.threads| > 0
  {
    if i == 0 then multiset{}
    else if steps[i - 1].CallAdd? then AddedSince(states, steps, i - 1) + multiset(steps[i - 1].checks)
    else if Returns(states, i - 1) then multiset{}
    else AddedSince(states, steps, i - 1)
  }

  lemma SettleHistory(s: State, th: nat, batchSize: nat)
    requires Inv(s) && th < |s.threads| && s.threads[th] == Locked
    ensures var u := Settle(s, th, batchSize);
            && |u.threads| == |s.threads|
            && (th != MASTER ==> u.threads[MASTER] == s.threads[MASTER] && u.added == s.added && u.last == s.last)
            && (th == MASTER && u.threads[MASTER].Outside? ==>
                 u.added == multiset{} && u.last == Some((AllGood(s.added), s.added)))
            && (th == MASTER && !u.threads[MASTER].Outside? ==> u.added == s.added && u.last == s.last)
  {
    if th == MASTER && s.queue == [] && s.nTodo == 0 {
      ReturnKeeps(s, batchSize);
    }
  }

  lemma CriticalHistory(s: State, step: Step)
    requires Inv(s) && Enabled(s, step) && (step.Enter? || step.Wake?)
    ensures var mid := if step.Enter? then CleanUp(s, step.th) else Woken(s, step.th);
            && Inv(mid) && |mid.threads| == |s.threads| && mid.threads[step.th] == Locked && mid.added == s.added &&
               mid.last == s.last
            && (step.th != MASTER ==> (mid.threads[MASTER].Outside? <==> s.threads[MASTER].Outside?))
            && (step.th == MASTER ==> !s.threads[MASTER].Outside?)
  {
    hide Sum, Bag, AllGood;
    if step.Enter? {
      CleanUpKeeps(s, step.th);
    } else {
      WakeKeeps(s, step.th);
    }
  }

  lemma StepHistory(s: State, step: Step, batchSize: nat)
    requires Inv(s) && Enabled(s, step)
    ensures var u := Apply(s, step, batchSize);
            && |u.threads| == |s.threads|
            && (step.CallAdd? ==> u.added == s.added + multiset(step.checks) && u.threads[MASTER].Outside?)
            && (!step.CallAdd? && !s.threads[MASTER].Outside? && u.threads[MASTER].Outside? ==>
                  u.added == multiset{} && u.last == Some((AllGood(s.added), s.added)))
            && (!step.CallAdd? && (s.threads[MASTER].Outside? || !u.threads[MASTER].Outside?) ==>
                 u.added == s.added && u.last == s.last)
  {
    hide Inv, AllGood, Settle, CleanUp, Woken;
    if step.Enter? || step.Wake? {
      CriticalHistory(s, step);
      SettleHistory(if step.Enter? then CleanUp(s, step.th) else Woken(s, step.th), step.th, batchSize);
    }
  }

  lemma {:induction false} HistoryIsSteps(states: seq<State>, steps: seq<Step>, workers: nat, batchSize: nat, i: nat)
    requires Execution(states, steps, workers, batchSize) && i <= |steps|
    requires forall s | s in states :: |s.threads| > 0
    ensures states[i].added == AddedSince(states, steps, i)
  {
    if i > 0 {
      HistoryIsSteps(states, steps, workers, batchSize, i - 1);
      EveryRun(states, steps, workers, batchSize, i - 1);
      assert states[i - 1 + 1] == Apply(states[i - 1], steps[i - 1], batchSize);
      StepHistory(states[i - 1], steps[i - 1], batchSize);
    }
  }

  lemma ThreadsExist(states: seq<State>, steps: seq<Step>, workers: nat, batchSize: nat)
    requires Execution(states, steps, workers, batchSize)
    ensures forall s | s in states :: |s.threads| > 0
  {
    forall i | 0 <= i < |states| ensures |states[i].threads| > 0
    {
      EveryRun(states, steps, workers, batchSize, i);
    }
  }

  /** Whenever Wait returns, in any interleaving, it returns true exactly when every check added
      since the previous Wait evaluates to true. */
  lemma WaitTellsTheTruth(states: seq<State>, steps: seq<Step>, workers: nat, batchSize: nat, i: nat)
    requires Execution(states, steps, workers, batchSize) && i < |steps|
    ensures |states[i].threads| > 0 && |states[i + 1].threads| > 0 && forall s | s in states :: |s.threads| > 0
    ensures Returns(states, i) ==>
              states[i + 1].last == Some((AllGood(AddedSince(states, steps, i)), AddedSince(states, steps, i)))
  {
    ThreadsExist(states, steps, workers, batchSize);
    EveryRun(states, steps, workers, batchSize, i);
    HistoryIsSteps(states, steps, workers, batchSize, i);
    assert states[i + 1] == Apply(states[i], steps[i], batchSize);
    StepHistory(states[i], steps[i], batchSize);
    hide Inv, Apply, Settle, CleanUp;
    assert Enabled(states[i], steps[i]);
  }

  // ---- no lost wake-up, no deadlock, and Wait ends ----

  lemma {:induction false} SomeoneHolds(threads: seq<Thread>) returns (th: nat)
    requires Sum(Held, threads) > 0
    ensures th < |threads| && threads[th].Working?
  {
    if Held(threads[0]) > 0 {
      th := 0;
    } else {
      th := SomeoneHolds(threads[1..]);
      th := th + 1;
    }
  }

  /** A master that waits and has not been notified waits for a worker that still has a batch. */
  lemma NoLostWakeUp(s: State) returns (th: nat)
    requires Inv(s) && s.threads[MASTER] == Waiting(false)
    ensures MASTER < th < |s.threads| && s.threads[th].Working?
  {
    th := SomeoneHolds(s.threads);
  }

  /** A step other than a new call of the master or a spurious wake-up. */
  predicate Purposeful(s: State, step: Step)
    requires Enabled(s, step)
  {
    !step.CallAdd? && !step.CallWait? && (step.Wake? ==> s.threads[step.th].notified)
  }

  /** While the master is in Wait some thread can go on, without help of a spurious wake-up. */
  lemma NeverStuck(s: State) returns (step: Step)
    requires Inv(s) && !s.threads[MASTER].Outside? && NoneLocked(s.threads)
    ensures Enabled(s, step) && Purposeful(s, step)
  {
    var th := MASTER;
    if s.threads[MASTER] == Waiting(false) {
      th := NoLostWakeUp(s);
    }
    assert ThreadOk(s.threads[th], th, s.added);
    match s.threads[th]
    case Entering => step := Enter(th);
    case Waiting(_) => step := Wake(th);
    case Working(batch, next, _) => step := if next == |batch| then Enter(th) else Run(th);
  }

  function Weight(t: Thread): nat {
    match t
    case Outside => 0
    case Entering => 1
    case Locked => 0
    case Waiting(notified) => if notified then 1 else 0
    case Working(batch, next, _) => 2 + if next <= |batch| then 2 * (|batch| - next) else 0
  }

  /** What is left to do, in steps. */
  function Measure(s: State): nat {
    5 * |s.queue| + Sum(Weight, s.threads)
  }

  lemma SettleSteps(s: State, th: nat, batchSize: nat)
    requires th < |s.threads| && s.threads[th] == Locked
    ensures Measure(Settle(s, th, batchSize)) <= Measure(s)
  {
    hide Sum;
    var u := Settle(s, th, batchSize);
    SumUpdate(Weight, s.threads, th, u.threads[th]);
    if s.queue != [] {
      FromBackSplits(s.queue, BatchNow(s, batchSize));
    }
  }

  /** Every purposeful step leaves less to do. */
  lemma StepsRunOut(s: State, step: Step, batchSize: nat)
    requires Inv(s) && Enabled(s, step) && Purposeful(s, step)
    ensures Measure(Apply(s, step, batchSize)) < Measure(s)
  {
    match step
    case Enter(th) =>
      CleanUpSteps(s, th);
      CleanUpKeeps(s, th);
      SettleSteps(CleanUp(s, th), th, batchSize);
    case Wake(th) =>
      SumUpdate(Weight, s.threads, th, Locked);
      SettleSteps(Woken(s, th), th, batchSize);
    case Run(th) =>
      SumUpdate(Weight, s.threads, th, Evaluate(s.threads[th]));
  }

  lemma CleanUpSteps(s: State, th: nat)
    requires Inv(s) && Enabled(s, Enter(th))
    ensures Measure(CleanUp(s, th)) < Measure(s)
  {
    hide Sum, Inv;
    var mid := s.threads[th := Locked];
    SumUpdate(Weight, s.threads, th, Locked);
    if |mid| > 0 && mid[MASTER].Waiting? {
      SumUpdate(Weight, mid, MASTER, Waiting(true));
    }
  }

  /** So a run of purposeful steps is never longer than the measure it starts from: Wait ends. */
  lemma {:induction false} WaitEnds(states: seq<State>, steps: seq<Step>, batchSize: nat)
    requires |states| == |steps| + 1 && Inv(states[0])
    requires forall i | 0 <= i < |steps| ::
               Enabled(states[i], steps[i]) && Purposeful(states[i], steps[i]) &&
               states[i + 1] == Apply(states[i], steps[i], batchSize)
    ensures |steps| <= Measure(states[0])
    decreases |steps|
  {
    if steps != [] {
      ApplyKeeps(states[0], steps[0], batchSize);
      StepsRunOut(states[0], steps[0], batchSize);
      assert states[0 + 1] == Apply(states[0], steps[0], batchSize);
      forall i | 0 <= i < |steps[1..]|
        ensures && Enabled(states[1..][i], steps[1..][i]) && Purposeful(states[1..][i], steps[1..][i])
                && states[1..][i + 1] == Apply(states[1..][i], steps[1..][i], batchSize)
      {
        assert states[1..][i] == states[i + 1] && steps[1..][i] == steps[i + 1];
        assert states[(i + 1) + 1] == Apply(states[i + 1], steps[i + 1], batchSize);
      }
      WaitEnds(states[1..], steps[1..], batchSize);
    }
  }
}
