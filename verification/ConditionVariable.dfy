/** The native condition variable: a counting semaphore and a waiter count under a small internal
    lock, and every interleaving of waiters, timeouts and notifiers over them. */
module ConditionVariables {
  import opened Text

  // ------------------------------------------------------------ clock ticks

  /** `static_cast<int>` of a non-negative number. */
  function CastToInt(n: nat): (r: int)
    ensures n < TWO_TO_32 / 2 ==> r == n
    ensures -(TWO_TO_32 / 2) <= r < TWO_TO_32 / 2 && (n - r) % TWO_TO_32 == 0
  {
    var low := n % TWO_TO_32;
    if low < TWO_TO_32 / 2 then low else low - TWO_TO_32
  }

  // The tick counts that stand for a wait without end and for none.
  const WAIT_FOREVER := -1
  const NO_WAIT := 0

  function MsToTicks(ms: int, rate: nat): int {
    if ms <= 0 then 0
    else
      var ticks := (ms * rate + 999) / 1000;
      CastToInt(if ticks < 1 then 1 else ticks)
  }

  /** The ticks of a positive wait, before the cast. */
  function TicksNeeded(ms: nat, rate: nat): nat {
    (ms * rate + 999) / 1000
  }

  /** The wait for `ticks` is not over before `ms` milliseconds are. */
  predicate Covers(ticks: int, ms: nat, rate: nat) {
    ticks == WAIT_FOREVER || ms * rate <= ticks * 1000
  }

  /** The ticks cover a positive wait exactly when their number fits an int, or the cast turns it into
      a wait without end; in the first case the wait is rounded up by less than one tick and never
      becomes a no-wait. */
  lemma TicksCoverTheWait(ms: int, rate: nat)
    requires ms > 0 && rate > 0
    ensures var needed := TicksNeeded(ms, rate);
            && (Covers(MsToTicks(ms, rate), ms, rate) <==>
                  needed < TWO_TO_32 / 2 || needed % TWO_TO_32 == TWO_TO_32 - 1)
            && (MsToTicks(ms, rate) == WAIT_FOREVER <==> needed % TWO_TO_32 == TWO_TO_32 - 1)
            && (needed < TWO_TO_32 / 2 ==>
                  MsToTicks(ms, rate) >= 1 && (MsToTicks(ms, rate) - 1) * 1000 < ms * rate)
  {
    var product := ms * rate;
    assert product >= 1;
  }

  /** The ticks `wait_for_ms` blocks for: a negative timeout waits without end. */
  function WaitTicks(timeout: int, rate: nat): int {
    if timeout < 0 then WAIT_FOREVER else MsToTicks(timeout, rate)
  }

  /** A deadline that is due does not block, and a negative timeout blocks until a notification; any
      other wait is the number of ticks needed, as far as an int can hold it. */
  lemma WaitIsAsAsked(timeout: int, rate: nat)
    ensures timeout <= 0 ==> MsToTicks(timeout, rate) == NO_WAIT
    ensures timeout < 0 ==> WaitTicks(timeout, rate) == -1
    ensures timeout == 0 ==> WaitTicks(timeout, rate) == 0
    ensures timeout > 0 && rate == 0 ==> WaitTicks(timeout, rate) == 1
    ensures timeout > 0 && rate > 0 ==>
              var (ticks, needed) := (WaitTicks(timeout, rate), TicksNeeded(timeout, rate));
              && needed >= 1 && needed * 1000 >= timeout * rate > (needed - 1) * 1000
              && (needed < TWO_TO_32 / 2 ==> ticks == needed)
              && -(TWO_TO_32 / 2) <= ticks < TWO_TO_32 / 2 && (needed - ticks) % TWO_TO_32 == 0
  {
    if timeout > 0 && rate > 0 {
      assert timeout * rate >= 1;
    }
  }

  /** A longer wait is cut by the cast: at 1000 ticks per second 2^32 milliseconds become no wait. */
  lemma TicksCanWrap()
    ensures MsToTicks(TWO_TO_32, 1000) == 0
  {
  }

  // ------------------------------------------------------------ the object

  /** The two counters; the methods are the parts that run while the internal lock is held. */
  class ConditionVariable {
    var sema: nat
    var waiters: nat

    constructor ()
      ensures sema == 0 && waiters == 0
    {
      sema, waiters := 0, 0;
    }

    /** Moves the whole waiter count into the semaphore. */
    method NotifyAll()
      modifies this
      ensures waiters == 0 && sema == old(sema) + old(waiters)
    {
      while waiters > 0
        invariant waiters + sema == old(waiters) + old(sema)
      {
        waiters := waiters - 1;
        sema := sema + 1;
      }
    }

    method Announce()
      modifies this
      ensures waiters == old(waiters) + 1 && sema == old(sema)
    {
      waiters := waiters + 1;
    }

    /** After a timeout: stop being counted, or consume the count that was given meanwhile. */
    method Reconcile() returns (took: bool)
      modifies this
      ensures old(waiters) > 0 ==> took && waiters == old(waiters) - 1 && sema == old(sema)
      ensures old(waiters) == 0 ==> waiters == 0 && took == (old(sema) > 0)
      ensures old(waiters) == 0 ==> sema == if took then old(sema) - 1 else old(sema)
    {
      if waiters > 0 {
        waiters := waiters - 1;
        return true;
      }
      took := sema > 0;
      if took {
        sema := sema - 1;
      }
    }
  }

  // ------------------------------------------------------------ all interleavings

  /** Where a thread inside `wait_for_ms` is. */
  datatype WaitPoint =
    // Counted; blocked on the semaphore.
    | Blocked
    // The semaphore wait timed out; about to take the internal lock.
    | TimedOut
    // Holds the internal lock and has read a zero waiter count; about to take without waiting.
    | Consuming

  /** Who holds the internal lock, and how far a notifier is. */
  datatype Lock =
    | Free
    | Notifying
    // `waiters_` was decremented, the semaphore is not given yet.
    | Giving
    | Reconciling(thread: nat)

  /** `failed` says that some take without waiting found the semaphore empty. */
  datatype State = State(sema: nat, waiters: nat, lock: Lock, threads: map<nat, WaitPoint>, failed: bool)

  const START := State(0, 0, Free, map[], false)

  datatype Label =
    | Announce(thread: nat)
    | Wake(thread: nat)
    | Timeout(thread: nat)
    | LockForReconcile(thread: nat)
    | TakeNoWait(thread: nat)
    | LockForNotify
    | Decrement
    | Give
    | UnlockAfterNotify

  predicate Enabled(s: State, l: Label) {
    match l
    case Announce(thread) => s.lock == Free && thread !in s.threads
    case Wake(thread) => thread in s.threads && s.threads[thread] == Blocked && s.sema > 0
    case Timeout(thread) => thread in s.threads && s.threads[thread] == Blocked
    case LockForReconcile(thread) => s.lock == Free && thread in s.threads && s.threads[thread] == TimedOut
    case TakeNoWait(thread) => s.lock == Reconciling(thread) && thread in s.threads && s.threads[thread] == Consuming
    case LockForNotify => s.lock == Free
    case Decrement => s.lock == Notifying && s.waiters > 0
    case Give => s.lock == Giving
    case UnlockAfterNotify => s.lock == Notifying && s.waiters == 0
  }

  function Apply(s: State, l: Label): State
    requires Enabled(s, l)
  {
    match l
    case Announce(thread) => s.(waiters := s.waiters + 1, threads := s.threads[thread := Blocked])
    case Wake(thread) => s.(sema := s.sema - 1, threads := s.threads - {thread})
    case Timeout(thread) => s.(threads := s.threads[thread := TimedOut])
    case LockForReconcile(thread) =>
      if s.waiters > 0 then s.(waiters := s.waiters - 1, threads := s.threads - {thread})
      else s.(lock := Reconciling(thread), threads := s.threads[thread := Consuming])
    case TakeNoWait(thread) =>
      s.(sema := if s.sema > 0 then s.sema - 1 else 0,
         failed := s.failed || s.sema == 0,
         lock := Free, threads := s.threads - {thread})
    case LockForNotify => s.(lock := Notifying)
    case Decrement => s.(waiters := s.waiters - 1, lock := Giving)
    case Give => s.(sema := s.sema + 1, lock := Notifying)
    case UnlockAfterNotify => s.(lock := Free)
  }

  function Exec(labels: seq<Label>): State {
    if labels == [] then START
    else
      var s := Exec(labels[..|labels| - 1]);
      var l := labels[|labels| - 1];
      if Enabled(s, l) then Apply(s, l) else s
  }

  /** Threads that announced a wait and are not yet accounted for. */
  function Announced(s: State): nat {
    |s.threads|
  }

  function InFlight(s: State): nat {
    if s.lock == Giving then 1 else 0
  }

  ghost predicate Counted(s: State) {
    Announced(s) == s.waiters + s.sema + InFlight(s)
  }

  /** Only the thread that holds the internal lock for it is about to take without waiting. */
  ghost predicate ConsumerHoldsLock(s: State) {
    && (forall t :: t in s.threads && s.threads[t] == Consuming ==> s.lock == Reconciling(t))
    && (s.lock.Reconciling? ==> s.waiters == 0 && s.lock.thread in s.threads && s.threads[s.lock.thread] == Consuming)
  }

  /** Every announced thread is a count among the waiters, in the semaphore, or in a notifier's hands. */
  ghost predicate Conserved(s: State) {
    Counted(s) && !s.failed && ConsumerHoldsLock(s)
  }

  lemma RemoveOne<K, V>(m: map<K, V>, k: K)
    requires k in m
    ensures |m - {k}| == |m| - 1
  {
    assert m == (m - {k})[k := m[k]];
  }

  lemma UpdateOne<K, V>(m: map<K, V>, k: K, v: V)
    ensures |m[k := v]| == if k in m then |m| else |m| + 1
  {
    if k in m {
      RemoveOne(m, k);
      RemoveOne(m[k := v], k);
      assert m - {k} == m[k := v] - {k};
    }
  }

  lemma {:induction false} CountedStep(s: State, l: Label)
    requires Enabled(s, l) && Conserved(s)
    ensures Counted(Apply(s, l)) && !Apply(s, l).failed
  {
    match l
    case Announce(thread) => UpdateOne(s.threads, thread, Blocked);
    case Wake(thread) => RemoveOne(s.threads, thread);
    case Timeout(thread) => UpdateOne(s.threads, thread, TimedOut);
    case LockForReconcile(thread) =>
      RemoveOne(s.threads, thread);
      UpdateOne(s.threads, thread, Consuming);
    case TakeNoWait(thread) => RemoveOne(s.threads, thread);
    case _ =>
  }

  lemma {:induction false} ConsumerStep(s: State, l: Label)
    requires Enabled(s, l) && ConsumerHoldsLock(s)
    ensures ConsumerHoldsLock(Apply(s, l))
  {
  }

  lemma {:induction false} ConservedStep(s: State, l: Label)
    requires Enabled(s, l) && Conserved(s)
    ensures Conserved(Apply(s, l))
  {
    hide Apply;
    hide Enabled;
    hide Counted;
    hide ConsumerHoldsLock;
    CountedStep(s, l);
    ConsumerStep(s, l);
  }

  lemma {:induction false} RunConserves(labels: seq<Label>)
    ensures Conserved(Exec(labels))
    decreases |labels|
  {
    if labels != [] {
      RunConserves(labels[..|labels| - 1]);
      var s, l := Exec(labels[..|labels| - 1]), labels[|labels| - 1];
      if Enabled(s, l) {
        ConservedStep(s, l);
      }
    }
  }

  /** In every reachable state outside a give, announced threads equal waiters plus semaphore count. */
  lemma {:induction false} WaitersConserved(labels: seq<Label>)
    requires Exec(labels).lock != Giving
    ensures var s := Exec(labels); Announced(s) == s.waiters + s.sema
  {
    hide Exec;
    RunConserves(labels);
  }

  /** The take without waiting that follows a timeout never finds the semaphore empty. */
  lemma {:induction false} NoWaitTakeSucceeds(labels: seq<Label>, thread: nat)
    ensures !Exec(labels).failed
    ensures Enabled(Exec(labels), TakeNoWait(thread)) ==> Exec(labels).sema > 0
  {
    hide Exec;
    RunConserves(labels);
    var s := Exec(labels);
    if Enabled(s, TakeNoWait(thread)) {
      RemoveOne(s.threads, thread);
    }
  }

  /** Once nobody waits, no count is left anywhere for a later waiter to find. */
  lemma {:induction false} NoTokenLeft(labels: seq<Label>)
    requires Exec(labels).threads == map[]
    ensures var s := Exec(labels); s.waiters == 0 && s.sema == 0 && s.lock != Giving
  {
    hide Exec;
    RunConserves(labels);
  }

  /** When a notifier lets go of the internal lock, there is a count for every thread still waiting. */
  lemma {:induction false} NotifyLeavesACountEach(labels: seq<Label>)
    requires Enabled(Exec(labels), UnlockAfterNotify)
    ensures var s := Exec(labels); s.sema == Announced(s)
  {
    hide Exec;
    RunConserves(labels);
  }

  // ------------------------------------------------------------ the object's methods as runs

  /** The steps of the loop in `notify_all`, `n` times around. */
  function Moves(n: nat): seq<Label> {
    if n == 0 then [] else [Decrement, Give] + Moves(n - 1)
  }

  lemma {:induction false} ExecNext(labels: seq<Label>, l: Label)
    ensures Exec(labels + [l]) == if Enabled(Exec(labels), l) then Apply(Exec(labels), l) else Exec(labels)
  {
    assert (labels + [l])[..|labels|] == labels;
  }

  /** A notifier that holds the internal lock has only one way to go, and it ends where `NotifyAll`
      does: every waiter's count is in the semaphore. */
  lemma {:induction false} NotifierMovesEveryCount(labels: seq<Label>)
    requires Exec(labels).lock == Notifying
    ensures var s := Exec(labels);
            Exec(labels + Moves(s.waiters)) == s.(waiters := 0, sema := s.sema + s.waiters)
    decreases Exec(labels).waiters
  {
    hide Exec;
    var s := Exec(labels);
    if s.waiters == 0 {
      assert labels + [] == labels;
    } else {
      var once := labels + [Decrement];
      var twice := once + [Give];
      ExecNext(labels, Decrement);
      ExecNext(once, Give);
      assert Exec(twice) == s.(waiters := s.waiters - 1, sema := s.sema + 1);
      hide Apply;
      hide Enabled;
      NotifierMovesEveryCount(twice);
      assert labels + ([Decrement, Give] + Moves(s.waiters - 1)) == twice + Moves(s.waiters - 1);
    }
  }

  /** A timed-out thread that takes the internal lock ends where `Reconcile` does, and is gone. */
  lemma {:induction false} ReconcilingRun(labels: seq<Label>, thread: nat)
    requires Enabled(Exec(labels), LockForReconcile(thread))
    ensures var (s, s') := (Exec(labels), Exec(labels + [LockForReconcile(thread)] + [TakeNoWait(thread)]));
            && thread !in s'.threads && s'.lock == Free && !s'.failed
            && (s'.waiters, s'.sema) == if s.waiters > 0 then (s.waiters - 1, s.sema) else (0, s.sema - 1)
  {
    hide Exec;
    hide Conserved;
    var locked := labels + [LockForReconcile(thread)];
    ExecNext(labels, LockForReconcile(thread));
    ExecNext(locked, TakeNoWait(thread));
    NoWaitTakeSucceeds(locked, thread);
    NoWaitTakeSucceeds(locked + [TakeNoWait(thread)], thread);
    assert labels + [LockForReconcile(thread)] + [TakeNoWait(thread)] == locked + [TakeNoWait(thread)];
  }

  /** A blocked thread takes a count as soon as there is one, and stays blocked while there is none. */
  lemma {:induction false} WakingRun(labels: seq<Label>, thread: nat)
    requires thread in Exec(labels).threads && Exec(labels).threads[thread] == Blocked
    ensures var (s, s') := (Exec(labels), Exec(labels + [Wake(thread)]));
            s' == if s.sema == 0 then s else s.(sema := s.sema - 1, threads := s.threads - {thread})
  {
    hide Exec;
    ExecNext(labels, Wake(thread));
  }

  /** A blocked thread may time out at any moment, and leaves once the internal lock is free. */
  lemma {:induction false} TimingOutRun(labels: seq<Label>, thread: nat)
    requires thread in Exec(labels).threads && Exec(labels).threads[thread] == Blocked
    ensures Exec(labels + [Timeout(thread)]) == Exec(labels).(threads := Exec(labels).threads[thread := TimedOut])
    ensures Exec(labels).lock == Free ==>
              var s' := Exec(labels + [Timeout(thread)] + [LockForReconcile(thread)] + [TakeNoWait(thread)]);
              s'.lock == Free && s'.threads == Exec(labels).threads - {thread}
  {
    hide Exec;
    var timedOut := labels + [Timeout(thread)];
    ExecNext(labels, Timeout(thread));
    ExecNext(timedOut, LockForReconcile(thread));
    ExecNext(timedOut + [LockForReconcile(thread)], TakeNoWait(thread));
  }

  /** Only a thread that has timed out can reconcile, and only the one that found no waiters takes
      without waiting. */
  lemma {:induction false} OutOfTurn(labels: seq<Label>, thread: nat)
    ensures var s := Exec(labels);
            && (!(thread in s.threads && s.threads[thread] == TimedOut) ==> Exec(labels + [LockForReconcile(thread)]) == s)
            && (!(thread in s.threads && s.threads[thread] == Consuming) ==> Exec(labels + [TakeNoWait(thread)]) == s)
            && (s.lock != Free ==> Exec(labels + [Announce(thread)]) == s && Exec(labels + [LockForNotify]) == s)
  {
    hide Exec;
    ExecNext(labels, LockForReconcile(thread));
    ExecNext(labels, TakeNoWait(thread));
    ExecNext(labels, Announce(thread));
    ExecNext(labels, LockForNotify);
  }

  /** Any thread that is not waiting may announce a wait, and any notifier start, when the internal
      lock is free; the notifier leaves a count for every thread and the lock free. */
  lemma {:induction false} AnnouncingRun(labels: seq<Label>, thread: nat)
    requires Exec(labels).lock == Free && thread !in Exec(labels).threads
    ensures var s := Exec(labels);
            Exec(labels + [Announce(thread)]) == s.(waiters := s.waiters + 1, threads := s.threads[thread := Blocked])
  {
    hide Exec;
    ExecNext(labels, Announce(thread));
  }

  lemma {:induction false} NotifyingRun(labels: seq<Label>)
    requires Exec(labels).lock == Free
    ensures var s := Exec(labels);
            Exec(labels + [LockForNotify] + Moves(s.waiters) + [UnlockAfterNotify])
            == s.(waiters := 0, sema := s.sema + s.waiters)
  {
    hide Exec;
    var s, locked := Exec(labels), labels + [LockForNotify];
    ExecNext(labels, LockForNotify);
    NotifierMovesEveryCount(locked);
    ExecNext(locked + Moves(s.waiters), UnlockAfterNotify);
  }
}
