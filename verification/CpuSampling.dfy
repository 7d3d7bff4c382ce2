/** CPU sampling by a task-switch hook that charges the ticks since the last switch to the task that
    was running, in a table of fixed size. */
module CpuSampling {
  import opened Text

  type Task = nat

  const MAX_TASKS := 256

  // Ticks are 64-bit unsigned.
  function Minus(a: nat, b: nat): nat {
    (a as int - b as int) % TWO_TO_64
  }

  function Plus(a: nat, b: nat): nat {
    (a + b) % TWO_TO_64
  }

  datatype Slot = Slot(task: Task, ticks: nat)

  datatype Table = Table(slots: seq<Slot>, last: nat)

  /** The first slot of a task, or the number of slots. */
  function SlotOf(slots: seq<Slot>, task: Task): (i: nat)
    ensures i <= |slots|
    ensures i < |slots| ==> slots[i].task == task
    ensures forall j :: 0 <= j < i ==> slots[j].task != task
  {
    if slots == [] || slots[0].task == task then 0 else 1 + SlotOf(slots[1..], task)
  }

  function Charged(slots: seq<Slot>, task: Task, delta: nat): seq<Slot> {
    var i := SlotOf(slots, task);
    if i < |slots| then slots[i := Slot(task, Plus(slots[i].ticks, delta))]
    else if |slots| < MAX_TASKS then slots + [Slot(task, delta)]
    else slots
  }

  function Switched(t: Table, task: Task, now: nat): Table {
    var delta := Minus(now, t.last);
    Table(if delta == 0 then t.slots else Charged(t.slots, task, delta), now)
  }

  /** The hook's storage. */
  class Sampler {
    const slots: array<Slot>
    var count: nat
    var last: nat

    ghost predicate Valid()
      reads this
    {
      slots.Length == MAX_TASKS && count <= MAX_TASKS
    }

    ghost function View(): Table
      reads this, slots
      requires Valid()
    {
      Table(slots[..count], last)
    }

    constructor ()
      ensures Valid() && fresh(slots) && View() == Table([], 0)
    {
      slots := new Slot[MAX_TASKS](_ => Slot(0, 0));
      count, last := 0, 0;
    }

    /** The start of a sampling window. */
    method Begin(now: nat)
      requires Valid()
      modifies this
      ensures Valid() && View() == Table([], now)
    {
      count, last := 0, now;
    }

    method SwitchHook(task: Task, now: nat)
      requires Valid()
      modifies this, slots
      ensures Valid() && View() == Switched(old(View()), task, now)
    {
      var delta := Minus(now, last);
      last := now;
      if delta == 0 {
        return;
      }
      var i := 0;
      while i < count
        invariant 0 <= i <= count && forall j :: 0 <= j < i ==> slots[j].task != task
        invariant Valid() && View() == Table(old(View()).slots, now)
      {
        if slots[i].task == task {
          assert SlotOf(slots[..count], task) == i;
          slots[i] := Slot(task, Plus(slots[i].ticks, delta));
          assert slots[..count] == Charged(old(View()).slots, task, delta);
          return;
        }
        i := i + 1;
      }
      assert SlotOf(slots[..count], task) == count;
      if count < MAX_TASKS {
        slots[count] := Slot(task, delta);
        count := count + 1;
      }
      assert slots[..count] == Charged(old(View()).slots, task, delta);
    }

    /** The end of a window: what the tasks were charged in all, and what nobody was. */
    method Report(start: nat, now: nat) returns (total: nat, attributed: nat, unattributed: nat)
      requires Valid()
      ensures total == Minus(now, start) && attributed == SumModulo(View().slots)
      ensures unattributed == if total > attributed then total - attributed else 0
    {
      total := Minus(now, start);
      attributed := 0;
      for i := 0 to count
        invariant attributed == SumModulo(slots[..i])
      {
        assert slots[..i + 1][..i] == slots[..i];
        attributed := Plus(attributed, slots[i].ticks);
      }
      unattributed := if total > attributed then total - attributed else 0;
    }
  }

  function SumModulo(slots: seq<Slot>): nat {
    if slots == [] then 0 else Plus(SumModulo(slots[..|slots| - 1]), slots[|slots| - 1].ticks)
  }

  // ------------------------------------------------------------ what really happened

  /** A switch away from `task` at tick `now`. */
  datatype Switch = Switch(task: Task, now: nat)

  function LastTick(start: nat, log: seq<Switch>): nat {
    if log == [] then start else log[|log| - 1].now
  }

  ghost predicate Monotone(start: nat, log: seq<Switch>) {
    && (forall i :: 0 <= i < |log| ==> start <= log[i].now < TWO_TO_64)
    && forall i, j :: 0 <= i < j < |log| ==> log[i].now <= log[j].now
  }

  /** The ticks during which `task` was the running one, up to the last switch. */
  function TimeOf(start: nat, log: seq<Switch>, task: Task): int {
    if log == [] then 0
    else
      var before, s := log[..|log| - 1], log[|log| - 1];
      TimeOf(start, before, task) + if s.task == task then s.now - LastTick(start, before) else 0
  }

  function Sampled(start: nat, log: seq<Switch>): Table {
    if log == [] then Table([], start)
    else Switched(Sampled(start, log[..|log| - 1]), log[|log| - 1].task, log[|log| - 1].now)
  }

  function HasSlot(slots: seq<Slot>, task: Task): bool {
    SlotOf(slots, task) < |slots|
  }

  /** The ticks that found the table full. */
  function Dropped(start: nat, log: seq<Switch>): int {
    if log == [] then 0
    else
      var before, s := log[..|log| - 1], log[|log| - 1];
      var slots := Sampled(start, before).slots;
      Dropped(start, before)
      + if HasSlot(slots, s.task) || |slots| < MAX_TASKS then 0 else s.now - LastTick(start, before)
  }

  function Sum(slots: seq<Slot>): nat {
    if slots == [] then 0 else Sum(slots[..|slots| - 1]) + slots[|slots| - 1].ticks
  }

  // ------------------------------------------------------------ sums

  lemma {:induction false} SumAppend(slots: seq<Slot>, s: Slot)
    ensures Sum(slots + [s]) == Sum(slots) + s.ticks
  {
    assert (slots + [s])[..|slots|] == slots;
  }

  lemma {:induction false} SumUpdate(slots: seq<Slot>, i: nat, s: Slot)
    requires i < |slots|
    ensures Sum(slots[i := s]) == Sum(slots) - slots[i].ticks + s.ticks
    decreases |slots|
  {
    var n := |slots| - 1;
    if i < n {
      SumUpdate(slots[..n], i, s);
      assert slots[i := s][..n] == slots[..n][i := s];
    } else {
      assert slots[i := s][..n] == slots[..n];
    }
  }

  lemma {:induction false} SumHasSlot(slots: seq<Slot>, i: nat)
    requires i < |slots|
    ensures slots[i].ticks <= Sum(slots)
    decreases |slots|
  {
    if i < |slots| - 1 {
      SumHasSlot(slots[..|slots| - 1], i);
    }
  }

  /** Machine addition does not wrap while the sum stays within a tick counter. */
  lemma {:induction false} SumIsExact(slots: seq<Slot>)
    requires Sum(slots) < TWO_TO_64
    ensures SumModulo(slots) == Sum(slots)
    decreases |slots|
  {
    if slots != [] {
      SumIsExact(slots[..|slots| - 1]);
    }
  }

  // ------------------------------------------------------------ main results

  /** One slot a task, each with exactly the task's ticks; a task with ticks and no slot met a full table. */
  ghost predicate Faithful(slots: seq<Slot>, time: Task -> int) {
    && |slots| <= MAX_TASKS
    && (forall i, j :: 0 <= i < j < |slots| ==> slots[i].task != slots[j].task)
    && (forall i :: 0 <= i < |slots| ==> slots[i].ticks == time(slots[i].task))
    && (|slots| < MAX_TASKS ==> forall task: Task :: !HasSlot(slots, task) ==> time(task) == 0)
  }

  lemma SlotIsFound(slots: seq<Slot>, i: nat, task: Task)
    requires i < |slots| && slots[i].task == task
    ensures HasSlot(slots, task)
  {
  }

  ghost predicate Gains(time: Task -> int, time': Task -> int, task: Task, delta: nat) {
    time'(task) == time(task) + delta && forall t: Task :: t != task ==> time'(t) == time(t)
  }

  lemma {:induction false} SlotIsCharged(slots: seq<Slot>, task: Task, delta: nat, time: Task -> int, time': Task -> int)
    requires Faithful(slots, time) && Gains(time, time', task, delta) && HasSlot(slots, task)
    ensures var i := SlotOf(slots, task); Faithful(slots[i := Slot(task, slots[i].ticks + delta)], time')
  {
    hide SlotOf;
    var i := SlotOf(slots, task);
    var slots' := slots[i := Slot(task, slots[i].ticks + delta)];
    forall t: Task | !HasSlot(slots', t) && |slots'| < MAX_TASKS
      ensures time'(t) == 0
    {
      if HasSlot(slots, t) {
        SlotIsFound(slots', SlotOf(slots, t), t);
      }
    }
  }

  lemma SlotIsAdded(slots: seq<Slot>, task: Task, delta: nat, time: Task -> int, time': Task -> int)
    requires Faithful(slots, time) && Gains(time, time', task, delta) && !HasSlot(slots, task) && |slots| < MAX_TASKS
    ensures Faithful(slots + [Slot(task, delta)], time')
  {
    hide SlotOf;
    var slots' := slots + [Slot(task, delta)];
    SlotIsFound(slots', |slots|, task);
    forall t: Task | !HasSlot(slots', t) && |slots'| < MAX_TASKS
      ensures time'(t) == 0
    {
      if HasSlot(slots, t) {
        SlotIsFound(slots', SlotOf(slots, t), t);
      }
    }
  }

  lemma TicksAreDropped(slots: seq<Slot>, task: Task, delta: nat, time: Task -> int, time': Task -> int)
    requires Faithful(slots, time) && Gains(time, time', task, delta) && !HasSlot(slots, task) && |slots| >= MAX_TASKS
    ensures Faithful(slots, time')
  {
    hide SlotOf;
    forall i | 0 <= i < |slots|
      ensures slots[i].ticks == time'(slots[i].task)
    {
      SlotIsFound(slots, i, slots[i].task);
    }
  }

  lemma {:induction false} ChargedSum(slots: seq<Slot>, task: Task, delta: nat)
    requires Sum(slots) + delta < TWO_TO_64
    ensures Sum(Charged(slots, task, delta))
         == Sum(slots) + if HasSlot(slots, task) || |slots| < MAX_TASKS then delta else 0
  {
    var i := SlotOf(slots, task);
    hide SlotOf;
    hide Sum;
    if i < |slots| {
      SumHasSlot(slots, i);
      SumUpdate(slots, i, Slot(task, slots[i].ticks + delta));
    } else if |slots| < MAX_TASKS {
      SumAppend(slots, Slot(task, delta));
    }
  }

  /** Charging adds the ticks to the task's slot, or drops them when there is none to have. */
  lemma ChargedIsFaithful(slots: seq<Slot>, task: Task, delta: nat, time: Task -> int, time': Task -> int)
    requires Faithful(slots, time) && Sum(slots) + delta < TWO_TO_64 && Gains(time, time', task, delta)
    ensures Faithful(Charged(slots, task, delta), time')
  {
    hide Faithful;
    hide Gains;
    var i := SlotOf(slots, task);
    if i < |slots| {
      SumHasSlot(slots, i);
      SlotIsCharged(slots, task, delta, time, time');
    } else if |slots| < MAX_TASKS {
      SlotIsAdded(slots, task, delta, time, time');
    } else {
      TicksAreDropped(slots, task, delta, time, time');
    }
    hide SlotOf;
    hide Sum;
  }

  function Times(start: nat, log: seq<Switch>): Task -> int {
    (task: Task) => TimeOf(start, log, task)
  }

  ghost predicate Exact(start: nat, log: seq<Switch>) {
    var t := Sampled(start, log);
    && t.last == LastTick(start, log)
    && Faithful(t.slots, Times(start, log))
    && Sum(t.slots) + Dropped(start, log) == LastTick(start, log) - start
    && Dropped(start, log) >= 0
    && (|t.slots| < MAX_TASKS ==> Dropped(start, log) == 0)
  }

  /** What one more switch adds to the history. */
  lemma {:induction false} SnocFacts(start: nat, log: seq<Switch>, s: Switch)
    requires LastTick(start, log) <= s.now
    ensures var (whole, t, delta) := (log + [s], Sampled(start, log), s.now - LastTick(start, log));
            && LastTick(start, whole) == s.now && Sampled(start, whole) == Switched(t, s.task, s.now)
            && Dropped(start, whole) == Dropped(start, log) + (if HasSlot(t.slots, s.task) || |t.slots| < MAX_TASKS then 0 else delta)
            && Gains(Times(start, log), Times(start, whole), s.task, delta)
  {
    assert (log + [s])[..|log|] == log;
  }

  lemma {:induction false} ExactStep(start: nat, log: seq<Switch>, s: Switch)
    requires Monotone(start, log + [s]) && start < TWO_TO_64 && Exact(start, log)
    ensures Exact(start, log + [s])
  {
    hide Faithful;
    hide Charged;
    var whole, slots, last := log + [s], Sampled(start, log).slots, LastTick(start, log);
    assert whole[|log|] == s && (log != [] ==> whole[|log| - 1] == log[|log| - 1]);
    SnocFacts(start, log, s);
    hide Sampled;
    hide Dropped;
    hide LastTick;
    hide Monotone;
    hide HasSlot;
    var delta := s.now - last;
    assert 0 <= delta < TWO_TO_64 && Minus(s.now, last) == delta;
    ChargedSum(slots, s.task, delta);
    ChargedIsFaithful(slots, s.task, delta, Times(start, log), Times(start, whole));
    if delta == 0 {
      SameTimes(slots, Times(start, log), Times(start, whole));
    } else {
      ChargedLength(slots, s.task, delta);
    }
  }

  lemma ChargedLength(slots: seq<Slot>, task: Task, delta: nat)
    ensures |Charged(slots, task, delta)| >= |slots|
    ensures !HasSlot(slots, task) && |slots| >= MAX_TASKS ==> |Charged(slots, task, delta)| >= MAX_TASKS
  {
  }

  lemma SameTimes(slots: seq<Slot>, time: Task -> int, time': Task -> int)
    requires Faithful(slots, time) && forall t: Task :: time'(t) == time(t)
    ensures Faithful(slots, time')
  {
  }

  lemma {:induction false} SamplingIsExact(start: nat, log: seq<Switch>)
    requires Monotone(start, log) && start < TWO_TO_64
    ensures Exact(start, log)
    decreases |log|
  {
    if log != [] {
      var before, s := log[..|log| - 1], log[|log| - 1];
      SamplingIsExact(start, before);
      assert before + [s] == log;
      ExactStep(start, before, s);
    }
  }

  /** The report adds up: the ticks of the window are those charged to tasks, those dropped because
      the table was full, and those since the last switch; the unattributed number is the last two
      and is never cut at zero. */
  lemma {:induction false} ReportAddsUp(start: nat, log: seq<Switch>, now: nat)
    requires Monotone(start, log) && start < TWO_TO_64 && LastTick(start, log) <= now < TWO_TO_64
    ensures var total, attributed := Minus(now, start), SumModulo(Sampled(start, log).slots);
            && total >= attributed
            && total - attributed == Dropped(start, log) + (now - LastTick(start, log))
  {
    SamplingIsExact(start, log);
    var last := LastTick(start, log);
    assert start <= last;
    hide Monotone;
    hide Sampled;
    hide Dropped;
    hide Faithful;
    SumIsExact(Sampled(start, log).slots);
    assert Minus(now, start) == now - start;
  }

  /** A task's slot holds exactly the ticks it ran; a task that ran has none only when the table is full. */
  lemma {:induction false} TaskTicks(start: nat, log: seq<Switch>, task: Task)
    requires Monotone(start, log) && start < TWO_TO_64
    ensures var slots := Sampled(start, log).slots;
            if HasSlot(slots, task) then slots[SlotOf(slots, task)].ticks == TimeOf(start, log, task)
            else |slots| == 256 || TimeOf(start, log, task) == 0
  {
    SamplingIsExact(start, log);
  }
}
