/** Every interleaving of senders, the reader, cancellers, the timer and close handlers over the
    tables of a session. One label is one lock-protected region or one callback invocation; a
    label that is not enabled leaves the state alone, so a run is any sequence of labels. */
module CorrelationRuns {
  import opened Correlation
  import opened Identifiers
  import opened Wrappers

  datatype Cause = Responded | Cancelled | TimedOut | Closed

  /** One call in progress, at the point between two of its regions. */
  datatype Activity =
    // `send_request` has an id, its callback is not registered yet.
    | Registering(id: RequestId, callback: Callback, options: Options)
    // `send_request` has registered the callback and is about to enter the timer region.
    | Tracking(id: RequestId, options: Options)
    // Deadlines of `todo` are gone; the callbacks are to be taken and run. `held` are taken, not run.
    | Removing(todo: set<RequestId>, held: map<RequestId, Callback>, cause: Cause)
    // `handle_close` has cleared the timer's tables and is about to swap the pending table out.
    | Closing

  datatype Request = Request(callback: Callback, options: Options)

  datatype Completion = Completion(id: RequestId, callback: Callback, cause: Cause)

  /** What the timer's tables saw: a deadline set, a progress notification, a pass of the timer. */
  datatype TimeEvent =
    | SetAt(id: RequestId, at: nat, timeout: nat, token: Option<RequestId>)
    | ProgressAt(from: RequestId, at: nat)
    | PassAt(expired: set<RequestId>, at: nat)

  /** The tables, the calls in progress and the clock, with the history of the run:
      requests registered, callbacks run, and what the timer saw. */
  datatype State = State(
    tables: Tables,
    calls: map<nat, Activity>,
    now: nat,
    registered: map<RequestId, Request>,
    completions: seq<Completion>,
    times: seq<TimeEvent>)

  const START := State(EMPTY, map[], 0, map[], [], [])

  datatype Label =
    | Send(call: nat, callback: Callback, options: Options)
    | Register(call: nat)
    | Track(call: nat)
    | Respond(call: nat, id: RequestId)
    | Cancel(call: nat, id: RequestId)
    | Expire(call: nat)
    | Take(call: nat, id: RequestId)
    | Run(call: nat, id: RequestId)
    | Progress(token: RequestId)
    | ClearTables(call: nat)
    | SwapPending(call: nat)
    | Tick(elapsed: nat)

  predicate IsRemoving(s: State, call: nat) {
    call in s.calls && s.calls[call].Removing?
  }

  predicate Enabled(s: State, l: Label) {
    match l
    case Send(call, _, _) => call !in s.calls
    case Register(call) => call in s.calls && s.calls[call].Registering?
    case Track(call) => call in s.calls && s.calls[call].Tracking?
    case Respond(call, _) => call !in s.calls
    case Cancel(call, _) => call !in s.calls
    case Expire(call) => call !in s.calls
    case Take(call, id) => IsRemoving(s, call) && id in s.calls[call].todo && s.calls[call].held == map[]
    case Run(call, id) => IsRemoving(s, call) && id in s.calls[call].held
    case Progress(_) => true
    case ClearTables(call) => call !in s.calls
    case SwapPending(call) => call in s.calls && s.calls[call].Closing?
    case Tick(_) => true
  }

  function Apply(s: State, l: Label): State
    requires Enabled(s, l)
  {
    var t := s.tables;
    match l
    case Send(call, callback, options) =>
      s.(tables := t.(nextId := t.nextId + 1),
         calls := s.calls[call := Registering(Number(t.nextId), callback, options)])
    case Register(call) =>
      var Registering(id, callback, options) := s.calls[call];
      s.(tables := t.(pending := t.pending[id := callback]),
         registered := s.registered[id := Request(callback, options)],
         calls := s.calls[call := Tracking(id, options)])
    case Track(call) =>
      var Tracking(id, options) := s.calls[call];
      s.(tables := Tracked(t, id, options, s.now),
         calls := s.calls - {call},
         times := if Timed(options)
                  then s.times + [SetAt(id, s.now, options.timeout.value, options.token)] else s.times)
    case Respond(call, id) =>
      s.(tables := Cleared(t, id), calls := s.calls[call := Removing({id}, map[], Responded)])
    case Cancel(call, id) =>
      s.(tables := Cleared(t, id), calls := s.calls[call := Removing({id}, map[], Cancelled)])
    case Expire(call) =>
      var due := Due(t.deadlines, s.now);
      s.(tables := Expired(t, s.now),
         calls := s.calls[call := Removing(due, map[], TimedOut)],
         times := s.times + [PassAt(due, s.now)])
    case Take(call, id) =>
      var c := s.calls[call];
      s.(tables := t.(pending := t.pending - {id}),
         calls := s.calls[call := Removing(c.todo - {id}, if id in t.pending then map[id := t.pending[id]] else map[], c.cause)])
    case Run(call, id) =>
      var c := s.calls[call];
      s.(calls := s.calls[call := c.(held := c.held - {id})],
         completions := s.completions + [Completion(id, c.held[id], c.cause)])
    case Progress(token) =>
      s.(tables := Progressed(t, token, s.now), times := s.times + [ProgressAt(token, s.now)])
    case ClearTables(call) =>
      s.(tables := t.(deadlines := map[], progress := map[]), calls := s.calls[call := Closing])
    case SwapPending(call) =>
      s.(tables := t.(pending := map[]), calls := s.calls[call := Removing({}, t.pending, Closed)])
    case Tick(elapsed) =>
      s.(now := s.now + elapsed)
  }

  function Exec(labels: seq<Label>): State {
    if labels == [] then START
    else
      var s := Exec(labels[..|labels| - 1]);
      var l := labels[|labels| - 1];
      if Enabled(s, l) then Apply(s, l) else s
  }

  // ------------------------------------------------------------ each request has one disposition

  ghost predicate Holds(s: State, call: nat, id: RequestId) {
    IsRemoving(s, call) && id in s.calls[call].held
  }

  ghost predicate Completed(s: State, id: RequestId) {
    exists k :: 0 <= k < |s.completions| && s.completions[k].id == id
  }

  ghost predicate IsStarting(a: Activity) {
    a.Registering? || a.Tracking?
  }

  ghost predicate IssuedBefore(id: RequestId, nextId: nat) {
    id.Number? && 0 <= id.n < nextId
  }

  /** Ids are issued once, and a starting call works on its own id. */
  ghost predicate IdsInvariant(s: State) {
    && (forall id :: id in s.registered ==> IssuedBefore(id, s.tables.nextId))
    && (forall c :: c in s.calls && s.calls[c].Registering? ==>
          IssuedBefore(s.calls[c].id, s.tables.nextId) && s.calls[c].id !in s.registered)
    && (forall c :: c in s.calls && s.calls[c].Tracking? ==>
          s.calls[c].id in s.registered && s.registered[s.calls[c].id].options == s.calls[c].options)
    && (forall c, d :: c in s.calls && d in s.calls && c != d && IsStarting(s.calls[c]) && IsStarting(s.calls[d]) ==>
          s.calls[c].id != s.calls[d].id)
  }

  ghost predicate PendingOwned(s: State) {
    forall id :: id in s.tables.pending ==>
      id in s.registered && s.tables.pending[id] == s.registered[id].callback && !Completed(s, id)
  }

  ghost predicate HeldOwned(s: State) {
    forall c, id :: Holds(s, c, id) ==>
      && id in s.registered && s.calls[c].held[id] == s.registered[id].callback
      && id !in s.tables.pending && !Completed(s, id)
  }

  ghost predicate HeldOnce(s: State) {
    forall c, d, id :: Holds(s, c, id) && Holds(s, d, id) ==> c == d
  }

  ghost predicate CompletedOnce(s: State) {
    && (forall k :: 0 <= k < |s.completions| ==>
          var done := s.completions[k]; done.id in s.registered && done.callback == s.registered[done.id].callback)
    && (forall j, k :: 0 <= j < k < |s.completions| ==> s.completions[j].id != s.completions[k].id)
  }

  ghost predicate Accounted(s: State) {
    forall id :: id in s.registered && id !in s.tables.pending && !Completed(s, id) ==> exists c :: Holds(s, c, id)
  }

  /** A callback is in exactly one place: the pending table, one call's hands, or the history. */
  ghost predicate CallbackInvariant(s: State) {
    PendingOwned(s) && HeldOwned(s) && HeldOnce(s) && CompletedOnce(s) && Accounted(s)
  }

  /** Where a call that is starting after a step comes from. */
  predicate StartsFrom(s: State, l: Label, c: nat, a: Activity)
    requires Enabled(s, l)
  {
    if l.Send? && c == l.call then a == Registering(Number(s.tables.nextId), l.callback, l.options)
    else
      && c in s.calls
      && if l.Register? && c == l.call then a == Tracking(s.calls[c].id, s.calls[c].options) else a == s.calls[c]
  }

  lemma {:induction false} StartingBefore(s: State, l: Label, c: nat)
    requires Enabled(s, l) && c in Apply(s, l).calls && IsStarting(Apply(s, l).calls[c])
    ensures StartsFrom(s, l, c, Apply(s, l).calls[c])
  {
  }

  lemma {:induction false} IssuedAndRegistered(s: State, l: Label)
    requires Enabled(s, l)
    ensures Apply(s, l).tables.nextId == s.tables.nextId + if l.Send? then 1 else 0
    ensures Apply(s, l).registered ==
            if l.Register? then var a := s.calls[l.call]; s.registered[a.id := Request(a.callback, a.options)] else s.registered
  {
  }

  lemma {:induction false} IdsPreserved(s: State, l: Label)
    requires Enabled(s, l) && IdsInvariant(s)
    ensures IdsInvariant(Apply(s, l))
  {
    hide Apply;
    var s' := Apply(s, l);
    IssuedAndRegistered(s, l);
    forall c | c in s'.calls && IsStarting(s'.calls[c])
      ensures StartsFrom(s, l, c, s'.calls[c])
    {
      StartingBefore(s, l, c);
    }
  }

  /** A call that holds a callback after a step held it before, or has just taken it from the table. */
  lemma HeldBefore(s: State, l: Label, c: nat, id: RequestId)
    requires Enabled(s, l) && Holds(Apply(s, l), c, id)
    ensures Holds(s, c, id) || (id in s.tables.pending && (l.Take? || l.SwapPending?) && c == l.call)
  {
  }

  lemma CompletedBefore(s: State, l: Label, id: RequestId)
    requires Enabled(s, l)
    ensures Completed(Apply(s, l), id) <==> Completed(s, id) || (l.Run? && l.id == id)
  {
    var s' := Apply(s, l);
    if Completed(s, id) {
      var k :| 0 <= k < |s.completions| && s.completions[k].id == id;
      assert s'.completions[k].id == id;
    }
    if l.Run? {
      assert s'.completions[|s.completions|].id == l.id;
    }
  }

  lemma PendingOwnedPreserved(s: State, l: Label)
    requires Enabled(s, l) && IdsInvariant(s) && CallbackInvariant(s)
    ensures PendingOwned(Apply(s, l))
  {
    var s' := Apply(s, l);
    forall id | id in s'.tables.pending
      ensures !Completed(s', id)
    {
      CompletedBefore(s, l, id);
      if l.Run? {
        assert Holds(s, l.call, l.id);
      }
    }
  }

  lemma HeldOwnedPreserved(s: State, l: Label)
    requires Enabled(s, l) && IdsInvariant(s) && CallbackInvariant(s)
    ensures HeldOwned(Apply(s, l)) && HeldOnce(Apply(s, l))
  {
    var s' := Apply(s, l);
    forall c, id | Holds(s', c, id)
      ensures id in s'.registered && s'.calls[c].held[id] == s'.registered[id].callback
      ensures id !in s'.tables.pending && !Completed(s', id)
    {
      HeldBefore(s, l, c, id);
      CompletedBefore(s, l, id);
      if l.Run? {
        assert Holds(s, l.call, l.id);
      }
    }
    forall c, d, id | Holds(s', c, id) && Holds(s', d, id)
      ensures c == d
    {
      HeldBefore(s, l, c, id);
      HeldBefore(s, l, d, id);
    }
  }

  lemma CompletedOncePreserved(s: State, l: Label)
    requires Enabled(s, l) && IdsInvariant(s) && CallbackInvariant(s)
    ensures CompletedOnce(Apply(s, l))
  {
    if l.Run? {
      assert Holds(s, l.call, l.id);
      forall k | 0 <= k < |s.completions|
        ensures s.completions[k].id != l.id
      {
      }
    }
  }

  /** A registered request that is neither pending nor completed is in some call's hands. */
  lemma AccountedPreserved(s: State, l: Label)
    requires Enabled(s, l) && IdsInvariant(s) && CallbackInvariant(s)
    ensures Accounted(Apply(s, l))
  {
    var s' := Apply(s, l);
    forall id | id in s'.registered && id !in s'.tables.pending && !Completed(s', id)
      ensures exists c :: Holds(s', c, id)
    {
      CompletedBefore(s, l, id);
      if id in s.tables.pending {
        assert Holds(s', l.call, id);
      } else {
        var c :| Holds(s, c, id);
        assert Holds(s', c, id);
      }
    }
  }

  lemma CallbacksPreserved(s: State, l: Label)
    requires Enabled(s, l) && IdsInvariant(s) && CallbackInvariant(s)
    ensures CallbackInvariant(Apply(s, l))
  {
    PendingOwnedPreserved(s, l);
    HeldOwnedPreserved(s, l);
    CompletedOncePreserved(s, l);
    AccountedPreserved(s, l);
  }

  // ------------------------------------------------------------ no timed request is orphaned

  /** The call is about to give the request a deadline, or is committed to removing the request. */
  ghost predicate Covers(a: Activity, id: RequestId) {
    match a
    case Registering(_, _, _) => false
    case Tracking(id', _) => id' == id
    case Removing(todo, _, _) => id in todo
    case Closing => true
  }

  ghost predicate CoveredBy(s: State, call: nat, id: RequestId) {
    call in s.calls && Covers(s.calls[call], id)
  }

  ghost predicate Guarded(s: State, id: RequestId) {
    id in s.tables.deadlines || exists c :: CoveredBy(s, c, id)
  }

  ghost predicate NoOrphans(s: State) {
    forall id :: id in s.tables.pending && id in s.registered && Timed(s.registered[id].options) ==> Guarded(s, id)
  }

  /** A cover is only given up by a step that sets the deadline or takes the request out of the table. */
  lemma CoverKept(s: State, l: Label, c: nat, id: RequestId)
    requires Enabled(s, l) && IdsInvariant(s) && CoveredBy(s, c, id)
    requires id in s.registered && Timed(s.registered[id].options)
    ensures var s' := Apply(s, l);
            CoveredBy(s', c, id) || id in s'.tables.deadlines || id !in s'.tables.pending
  {
  }

  lemma DeadlineKept(s: State, l: Label, id: RequestId)
    requires Enabled(s, l) && id in s.tables.deadlines
    ensures Guarded(Apply(s, l), id)
  {
    var s' := Apply(s, l);
    if id !in s'.tables.deadlines {
      assert l.Respond? || l.Cancel? || l.Expire? || l.ClearTables?;
      assert CoveredBy(s', l.call, id);
    }
  }

  lemma {:induction false} NoOrphansPreserved(s: State, l: Label)
    requires Enabled(s, l) && IdsInvariant(s) && NoOrphans(s)
    ensures NoOrphans(Apply(s, l))
  {
    var s' := Apply(s, l);
    forall id | id in s'.tables.pending && id in s'.registered && Timed(s'.registered[id].options)
      ensures Guarded(s', id)
    {
      if l.Register? && s.calls[l.call].id == id {
        assert CoveredBy(s', l.call, id);
      } else if id in s.tables.deadlines {
        DeadlineKept(s, l, id);
      } else {
        var c :| CoveredBy(s, c, id);
        CoverKept(s, l, c, id);
      }
    }
  }

  // ------------------------------------------------------------ the timer fires on time

  /** The event at `k` restarts the clock of request `id`, whose token is `token`. */
  ghost predicate Restarts(e: TimeEvent, id: RequestId, token: Option<RequestId>) {
    (e.SetAt? && e.id == id) || (e.ProgressAt? && token == Some(e.from))
  }

  ghost predicate IsSet(s: State, id: RequestId) {
    exists k :: 0 <= k < |s.times| && s.times[k].SetAt? && s.times[k].id == id
  }

  /** Each request's deadline is set at most once, by its own call. */
  ghost predicate SetOnce(s: State) {
    && (forall j, k :: 0 <= j < k < |s.times| && s.times[j].SetAt? && s.times[k].SetAt? ==> s.times[j].id != s.times[k].id)
    && (forall k :: 0 <= k < |s.times| && s.times[k].SetAt? ==> s.times[k].id in s.registered)
    && (forall c :: c in s.calls && s.calls[c].Tracking? ==> !IsSet(s, s.calls[c].id))
  }

  /** A deadline lies exactly one full timeout after the latest event that restarted its clock. */
  ghost predicate DeadlineExact(s: State, id: RequestId, d: Deadline) {
    && (forall k :: 0 <= k < |s.times| && s.times[k].SetAt? && s.times[k].id == id ==>
          s.times[k].timeout == d.timeout && s.times[k].token == d.token)
    && IsSet(s, id)
    && (forall k :: 0 <= k < |s.times| && Restarts(s.times[k], id, d.token) ==> s.times[k].at + d.timeout <= d.at)
    && (exists k :: 0 <= k < |s.times| && Restarts(s.times[k], id, d.token) && s.times[k].at + d.timeout == d.at)
  }

  ghost predicate DeadlinesExact(s: State) {
    forall id :: id in s.tables.deadlines ==> DeadlineExact(s, id, s.tables.deadlines[id])
  }

  /** The pass at `k` expired `id`: a full timeout has gone by since every restart before it. */
  ghost predicate NotEarly(s: State, k: nat, id: RequestId)
    requires k < |s.times|
  {
    exists i :: 0 <= i < k && s.times[i].SetAt? && s.times[i].id == id &&
      forall j :: 0 <= j < k && Restarts(s.times[j], id, s.times[i].token) ==>
        s.times[j].at + s.times[i].timeout <= s.times[k].at
  }

  ghost predicate PassesNotEarly(s: State) {
    forall k, id :: 0 <= k < |s.times| && s.times[k].PassAt? && id in s.times[k].expired ==> NotEarly(s, k, id)
  }

  ghost predicate ClockInvariant(s: State) {
    forall k :: 0 <= k < |s.times| ==> s.times[k].at <= s.now
  }

  ghost predicate TimerInvariant(s: State) {
    ClockInvariant(s) && SetOnce(s) && DeadlinesExact(s) && PassesNotEarly(s)
  }

  lemma {:induction false} SetOncePreserved(s: State, l: Label)
    requires Enabled(s, l) && IdsInvariant(s) && SetOnce(s)
    ensures SetOnce(Apply(s, l))
  {
    var s' := Apply(s, l);
    forall c | c in s'.calls && s'.calls[c].Tracking?
      ensures !IsSet(s', s'.calls[c].id)
    {
      var id := s'.calls[c].id;
      forall k | 0 <= k < |s'.times| && s'.times[k].SetAt?
        ensures s'.times[k].id != id
      {
        if k < |s.times| {
          assert IsSet(s, s.times[k].id);
        }
      }
    }
    forall k | 0 <= k < |s.times| && s.times[k].SetAt?
      ensures IsSet(s, s.times[k].id)
    {
    }
  }

  lemma RestartsKept(s: State, e: TimeEvent, id: RequestId, d: Deadline)
    requires DeadlineExact(s, id, d)
    requires !Restarts(e, id, d.token)
    ensures DeadlineExact(s.(times := s.times + [e]), id, d)
  {
    var s' := s.(times := s.times + [e]);
    var i :| 0 <= i < |s.times| && s.times[i].SetAt? && s.times[i].id == id;
    assert s'.times[i].SetAt? && s'.times[i].id == id;
    var k :| 0 <= k < |s.times| && Restarts(s.times[k], id, d.token) && s.times[k].at + d.timeout == d.at;
    assert Restarts(s'.times[k], id, d.token) && s'.times[k].at + d.timeout == d.at;
  }

  lemma ProgressRestarts(s: State, from: RequestId, id: RequestId, d: Deadline)
    requires ClockInvariant(s) && DeadlineExact(s, id, d)
    ensures DeadlineExact(s.(times := s.times + [ProgressAt(from, s.now)]), id, Restarted(d, from, s.now))
  {
    var s' := s.(times := s.times + [ProgressAt(from, s.now)]);
    if d.token == Some(from) {
      var i :| 0 <= i < |s.times| && s.times[i].SetAt? && s.times[i].id == id;
      assert s'.times[i].SetAt? && s'.times[i].id == id;
      assert Restarts(s'.times[|s.times|], id, d.token);
    } else {
      RestartsKept(s, ProgressAt(from, s.now), id, d);
    }
  }

  lemma FirstSet(s: State, id: RequestId, timeout: nat, token: Option<RequestId>)
    requires ClockInvariant(s) && !IsSet(s, id)
    ensures DeadlineExact(s.(times := s.times + [SetAt(id, s.now, timeout, token)]), id, Deadline(s.now + timeout, timeout, token))
  {
    var s' := s.(times := s.times + [SetAt(id, s.now, timeout, token)]);
    assert s'.times[|s.times|].SetAt? && s'.times[|s.times|].id == id;
    assert Restarts(s'.times[|s.times|], id, token);
    forall k | 0 <= k < |s.times| && s.times[k].SetAt?
      ensures s.times[k].id != id
    {
    }
  }

  /** Where a deadline that is in the table after a step comes from. */
  lemma DeadlineOrigin(s: State, l: Label, id: RequestId)
    requires Enabled(s, l) && id in Apply(s, l).tables.deadlines
    ensures var d' := Apply(s, l).tables.deadlines[id];
            if l.Track? && s.calls[l.call].id == id && Timed(s.calls[l.call].options) then
              var o := s.calls[l.call].options; d' == Deadline(s.now + o.timeout.value, o.timeout.value, o.token)
            else
              id in s.tables.deadlines &&
              d' == if l.Progress? then Restarted(s.tables.deadlines[id], l.token, s.now) else s.tables.deadlines[id]
  {
  }

  /** The event a step adds to what the timer saw. */
  lemma NewEvent(s: State, l: Label)
    requires Enabled(s, l)
    ensures var times' := Apply(s, l).times;
            match l
            case Progress(token) => times' == s.times + [ProgressAt(token, s.now)]
            case Expire(_) => times' == s.times + [PassAt(Due(s.tables.deadlines, s.now), s.now)]
            case Track(call) =>
              var o := s.calls[call].options;
              times' == if Timed(o) then s.times + [SetAt(s.calls[call].id, s.now, o.timeout.value, o.token)] else s.times
            case _ => times' == s.times
  {
  }

  lemma ExactnessDependsOnTimes(s: State, s': State, id: RequestId, d: Deadline)
    requires DeadlineExact(s, id, d) && s'.times == s.times
    ensures DeadlineExact(s', id, d)
  {
    assert IsSet(s, id);
  }

  lemma {:induction false} DeadlineExactAfter(s: State, l: Label, id: RequestId)
    requires Enabled(s, l) && IdsInvariant(s) && TimerInvariant(s) && id in Apply(s, l).tables.deadlines
    ensures DeadlineExact(Apply(s, l), id, Apply(s, l).tables.deadlines[id])
  {
    hide DeadlineExact;
    var s' := Apply(s, l);
    var d' := s'.tables.deadlines[id];
    DeadlineOrigin(s, l, id);
    NewEvent(s, l);
    ghost var e: State := s.(times := s'.times);
    if l.Track? && s.calls[l.call].id == id && Timed(s.calls[l.call].options) {
      FirstSet(s, id, d'.timeout, d'.token);
    } else if l.Progress? {
      ProgressRestarts(s, l.token, id, s.tables.deadlines[id]);
    } else if s'.times != s.times {
      RestartsKept(s, s'.times[|s.times|], id, d');
    }
    ExactnessDependsOnTimes(e, s', id, d');
  }

  lemma {:induction false} DeadlinesPreserved(s: State, l: Label)
    requires Enabled(s, l) && IdsInvariant(s) && TimerInvariant(s)
    ensures DeadlinesExact(Apply(s, l))
  {
    var s' := Apply(s, l);
    forall id | id in s'.tables.deadlines
      ensures DeadlineExact(s', id, s'.tables.deadlines[id])
    {
      DeadlineExactAfter(s, l, id);
    }
  }

  lemma {:induction false} PassKept(s: State, s': State, k: nat, id: RequestId)
    requires k < |s.times| && NotEarly(s, k, id) && s.times <= s'.times
    ensures NotEarly(s', k, id)
  {
    var i :| 0 <= i < k && s.times[i].SetAt? && s.times[i].id == id &&
      forall j :: 0 <= j < k && Restarts(s.times[j], id, s.times[i].token) ==>
        s.times[j].at + s.times[i].timeout <= s.times[k].at;
    assert s'.times[i].SetAt? && s'.times[i].id == id;
  }

  lemma {:induction false} NewPass(s: State, s': State, id: RequestId)
    requires id in Due(s.tables.deadlines, s.now) && DeadlineExact(s, id, s.tables.deadlines[id])
    requires s'.times == s.times + [PassAt(Due(s.tables.deadlines, s.now), s.now)]
    ensures NotEarly(s', |s.times|, id)
  {
    var i :| 0 <= i < |s.times| && s.times[i].SetAt? && s.times[i].id == id;
    assert s'.times[i].SetAt? && s'.times[i].id == id;
  }

  lemma {:induction false} PassesPreserved(s: State, l: Label)
    requires Enabled(s, l) && TimerInvariant(s)
    ensures PassesNotEarly(Apply(s, l))
  {
    var s' := Apply(s, l);
    NewEvent(s, l);
    hide Apply;
    hide NotEarly;
    hide DeadlineExact;
    hide SetOnce;
    forall k, id | 0 <= k < |s'.times| && s'.times[k].PassAt? && id in s'.times[k].expired
      ensures NotEarly(s', k, id)
    {
      if k < |s.times| {
        PassKept(s, s', k, id);
      } else {
        NewPass(s, s', id);
      }
    }
  }

  lemma {:induction false} TimerPreserved(s: State, l: Label)
    requires Enabled(s, l) && IdsInvariant(s) && TimerInvariant(s)
    ensures TimerInvariant(Apply(s, l))
  {
    SetOncePreserved(s, l);
    DeadlinesPreserved(s, l);
    PassesPreserved(s, l);
  }

  /** A deadline is set with the timeout and the token that its request asked for. */
  ghost predicate SetAsAsked(s: State) {
    forall k :: 0 <= k < |s.times| && s.times[k].SetAt? ==> AsAsked(s, s.times[k])
  }

  predicate AsAsked(s: State, e: TimeEvent)
    requires e.SetAt?
  {
    && e.id in s.registered && Timed(s.registered[e.id].options)
    && e.timeout == s.registered[e.id].options.timeout.value && e.token == s.registered[e.id].options.token
  }

  lemma {:induction false} SetAsAskedPreserved(s: State, l: Label)
    requires Enabled(s, l) && IdsInvariant(s) && SetAsAsked(s)
    ensures SetAsAsked(Apply(s, l))
  {
    var s' := Apply(s, l);
    NewEvent(s, l);
    IssuedAndRegistered(s, l);
    hide Apply;
    forall k | 0 <= k < |s'.times| && s'.times[k].SetAt?
      ensures AsAsked(s', s'.times[k])
    {
      if k < |s.times| {
        assert AsAsked(s, s.times[k]);
      }
    }
  }

  // ------------------------------------------------------------ over whole runs

  ghost predicate Invariant(s: State) {
    IdsInvariant(s) && CallbackInvariant(s) && NoOrphans(s) && TimerInvariant(s) && SetAsAsked(s)
  }

  lemma {:induction false} RunInvariant(labels: seq<Label>)
    ensures Invariant(Exec(labels))
    decreases |labels|
  {
    if labels != [] {
      RunInvariant(labels[..|labels| - 1]);
      var s, l := Exec(labels[..|labels| - 1]), labels[|labels| - 1];
      if Enabled(s, l) {
        IdsPreserved(s, l);
        CallbacksPreserved(s, l);
        NoOrphansPreserved(s, l);
        TimerPreserved(s, l);
        SetAsAskedPreserved(s, l);
      }
    }
  }

  /** In every interleaving a registered request is pending, in the hands of one call that took it,
      or completed - one of the three, and its own callback has run at most once. */
  lemma OneDisposition(labels: seq<Label>, id: RequestId)
    requires id in Exec(labels).registered
    ensures var s := Exec(labels);
            && (id in s.tables.pending || Completed(s, id) || exists c :: Holds(s, c, id))
            && !(id in s.tables.pending && Completed(s, id))
            && (forall c :: Holds(s, c, id) ==> id !in s.tables.pending && !Completed(s, id))
            && (forall c, d :: Holds(s, c, id) && Holds(s, d, id) ==> c == d)
            && (forall j, k :: 0 <= j < k < |s.completions| && s.completions[j].id == id ==> s.completions[k].id != id)
            && (forall k :: 0 <= k < |s.completions| && s.completions[k].id == id ==>
                  s.completions[k].callback == s.registered[id].callback)
  {
    RunInvariant(labels);
  }

  /** A timed request that is still pending has a deadline, a sender about to set one, or a call
      committed to taking it. */
  lemma TimedRequestGuarded(labels: seq<Label>, id: RequestId)
    requires var s := Exec(labels);
             id in s.tables.pending && id in s.registered && Timed(s.registered[id].options)
    ensures Guarded(Exec(labels), id)
  {
    RunInvariant(labels);
  }

  /** Once every call has finished, a timed request is completed or still has a deadline. */
  lemma QuietSessionKeepsDeadlines(labels: seq<Label>, id: RequestId)
    requires var s := Exec(labels);
             && id in s.registered && Timed(s.registered[id].options)
             && forall c :: c in s.calls ==> s.calls[c].Removing? && s.calls[c].todo == {} && s.calls[c].held == map[]
    ensures Completed(Exec(labels), id) || id in Exec(labels).tables.deadlines
  {
    RunInvariant(labels);
    var s := Exec(labels);
    if id in s.tables.pending {
      assert Guarded(s, id);
    } else {
      assert Completed(s, id) || exists c :: Holds(s, c, id);
    }
  }

  /** The timer expires a request only when its full timeout has passed since its deadline was set
      and since every progress notification handled for its token. */
  lemma TimeoutIsNeverEarly(labels: seq<Label>, k: nat, id: RequestId)
    requires var s := Exec(labels);
             k < |s.times| && s.times[k].PassAt? && id in s.times[k].expired
    ensures var s := Exec(labels);
            && id in s.registered && Timed(s.registered[id].options)
            && (exists i ::
                  && 0 <= i < k && s.times[i].SetAt? && s.times[i].id == id
                  && s.times[i].timeout == s.registered[id].options.timeout.value
                  && s.times[i].token == s.registered[id].options.token
                  && s.times[i].at + s.times[i].timeout <= s.times[k].at
                  && forall j :: 0 <= j < k && s.times[j].ProgressAt? && s.times[i].token == Some(s.times[j].from) ==>
                       s.times[j].at + s.times[i].timeout <= s.times[k].at)
  {
    RunInvariant(labels);
    var s := Exec(labels);
    assert NotEarly(s, k, id);
    var i :| 0 <= i < k && s.times[i].SetAt? && s.times[i].id == id &&
      forall j :: 0 <= j < k && Restarts(s.times[j], id, s.times[i].token) ==>
        s.times[j].at + s.times[i].timeout <= s.times[k].at;
    assert Restarts(s.times[i], id, s.times[i].token) && AsAsked(s, s.times[i]);
    forall j | 0 <= j < k && s.times[j].ProgressAt? && s.times[i].token == Some(s.times[j].from)
      ensures s.times[j].at + s.times[i].timeout <= s.times[k].at
    {
      assert Restarts(s.times[j], id, s.times[i].token);
    }
  }

  lemma {:induction false} ExecNext(labels: seq<Label>, l: Label)
    ensures Exec(labels + [l]) == if Enabled(Exec(labels), l) then Apply(Exec(labels), l) else Exec(labels)
  {
    assert (labels + [l])[..|labels|] == labels;
  }

  /** A deadline is due exactly when the latest restart is a full timeout ago. */
  lemma DueExactly(s: State, id: RequestId)
    requires id in s.tables.deadlines && DeadlineExact(s, id, s.tables.deadlines[id])
    ensures var d := s.tables.deadlines[id];
            id in Due(s.tables.deadlines, s.now) <==>
            forall k :: 0 <= k < |s.times| && Restarts(s.times[k], id, d.token) ==> s.times[k].at + d.timeout <= s.now
  {
    var d := s.tables.deadlines[id];
    var k :| 0 <= k < |s.times| && Restarts(s.times[k], id, d.token) && s.times[k].at + d.timeout == d.at;
  }

  lemma {:induction false} DeadlineIsExact(labels: seq<Label>, id: RequestId)
    requires id in Exec(labels).tables.deadlines
    ensures DeadlineExact(Exec(labels), id, Exec(labels).tables.deadlines[id])
  {
    hide Exec;
    hide DeadlineExact;
    RunInvariant(labels);
  }

  lemma PassTakesTheDue(s: State, call: nat, id: RequestId)
    requires call !in s.calls && id in s.tables.deadlines
    ensures id !in Apply(s, Expire(call)).tables.deadlines <==> id in Due(s.tables.deadlines, s.now)
  {
  }

  /** A pass expires exactly the requests for which the latest restart is a full timeout ago. */
  lemma {:induction false} PassExpiresExactlyTheDue(labels: seq<Label>, call: nat, id: RequestId)
    requires var s := Exec(labels); call !in s.calls && id in s.tables.deadlines
    ensures var s, s' := Exec(labels), Exec(labels + [Expire(call)]);
            var d := s.tables.deadlines[id];
            id !in s'.tables.deadlines <==>
            forall k :: 0 <= k < |s.times| && Restarts(s.times[k], id, d.token) ==> s.times[k].at + d.timeout <= s.now
  {
    hide Exec;
    hide Apply;
    hide DeadlineExact;
    hide Restarts;
    hide Due;
    var s := Exec(labels);
    DeadlineIsExact(labels, id);
    DueExactly(s, id);
    PassTakesTheDue(s, call, id);
    ExecNext(labels, Expire(call));
  }
}
