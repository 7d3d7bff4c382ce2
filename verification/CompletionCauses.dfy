/** What a completed request is told, in every interleaving of a session's regions: the cause its
    callback is run with is one that happened to that request. */
module CompletionCauses {
  import opened Correlation
  import opened CorrelationRuns
  import opened Identifiers
  import opened Wrappers

  /** A pass of the timer at this state finds the request's deadline, and its time has come. */
  ghost predicate IsOverdue(s: State, id: RequestId) {
    id in s.tables.deadlines && s.tables.deadlines[id].at <= s.now
  }

  /** What a step is the cause of: the answer to a request, its cancellation, a pass of the timer that
      finds it overdue, a close that finds it pending. */
  ghost predicate Causes(s: State, l: Label, id: RequestId, cause: Cause) {
    match cause
    case Responded => l.Respond? && l.id == id
    case Cancelled => l.Cancel? && l.id == id
    case TimedOut => l.Expire? && IsOverdue(s, id)
    case Closed => l.SwapPending? && id in s.tables.pending
  }

  /** The label at `j` was a step of the run, and the cause. */
  ghost predicate HappenedAt(labels: seq<Label>, j: nat, id: RequestId, cause: Cause) {
    && j < |labels| && Enabled(Exec(labels[..j]), labels[j])
    && Causes(Exec(labels[..j]), labels[j], id, cause)
  }

  ghost predicate Happened(labels: seq<Label>, id: RequestId, cause: Cause) {
    exists j: nat :: HappenedAt(labels, j, id, cause)
  }

  lemma {:induction false} HappenedStays(labels: seq<Label>, l: Label, id: RequestId, cause: Cause)
    requires Happened(labels, id, cause)
    ensures Happened(labels + [l], id, cause)
  {
    hide Exec;
    hide Enabled;
    hide Causes;
    var j: nat :| HappenedAt(labels, j, id, cause);
    assert (labels + [l])[..j] == labels[..j];
    assert HappenedAt(labels + [l], j, id, cause);
  }

  lemma {:induction false} HappensNow(labels: seq<Label>, l: Label, id: RequestId, cause: Cause)
    requires Enabled(Exec(labels), l) && Causes(Exec(labels), l, id, cause)
    ensures Happened(labels + [l], id, cause)
  {
    hide Exec;
    hide Enabled;
    hide Causes;
    assert (labels + [l])[..|labels|] == labels;
    assert HappenedAt(labels + [l], |labels|, id, cause);
  }

  /** The requests that a call is to take and to tell this cause. */
  ghost predicate Tells(s: State, call: nat, id: RequestId, cause: Cause) {
    IsRemoving(s, call) && (id in s.calls[call].todo || id in s.calls[call].held) && s.calls[call].cause == cause
  }

  ghost predicate WasTold(s: State, id: RequestId, cause: Cause) {
    exists k :: 0 <= k < |s.completions| && s.completions[k].id == id && s.completions[k].cause == cause
  }

  lemma {:induction false} TellsBefore(s: State, l: Label, call: nat, id: RequestId, cause: Cause)
    requires Enabled(s, l) && Tells(Apply(s, l), call, id, cause)
    ensures Tells(s, call, id, cause) || Causes(s, l, id, cause)
  {
  }

  lemma {:induction false} ToldBefore(s: State, l: Label, id: RequestId, cause: Cause)
    requires Enabled(s, l) && WasTold(Apply(s, l), id, cause)
    ensures WasTold(s, id, cause) || (l.Run? && Tells(s, l.call, id, cause))
  {
    var s' := Apply(s, l);
    var k :| 0 <= k < |s'.completions| && s'.completions[k].id == id && s'.completions[k].cause == cause;
    assert k < |s.completions| ==> s.completions[k] == s'.completions[k];
  }

  ghost predicate CausesHappened(labels: seq<Label>) {
    var s := Exec(labels);
    && (forall c, id, cause :: Tells(s, c, id, cause) ==> Happened(labels, id, cause))
    && forall id, cause :: WasTold(s, id, cause) ==> Happened(labels, id, cause)
  }

  lemma {:induction false} NothingTold()
    ensures CausesHappened([])
  {
  }

  lemma {:induction false} CausesStep(labels: seq<Label>, l: Label)
    requires CausesHappened(labels)
    ensures CausesHappened(labels + [l])
  {
    hide Exec;
    hide Apply;
    hide Enabled;
    hide Happened;
    hide Causes;
    hide Tells;
    hide WasTold;
    ExecNext(labels, l);
    var s, s' := Exec(labels), Exec(labels + [l]);
    forall c, id, cause | Tells(s', c, id, cause)
      ensures Happened(labels + [l], id, cause)
    {
      if Tells(s, c, id, cause) {
        HappenedStays(labels, l, id, cause);
      } else {
        TellsBefore(s, l, c, id, cause);
        HappensNow(labels, l, id, cause);
      }
    }
    forall id, cause | WasTold(s', id, cause)
      ensures Happened(labels + [l], id, cause)
    {
      if WasTold(s, id, cause) {
        HappenedStays(labels, l, id, cause);
      } else {
        ToldBefore(s, l, id, cause);
        HappenedStays(labels, l, id, cause);
      }
    }
  }

  lemma {:induction false} RunCauses(labels: seq<Label>)
    ensures CausesHappened(labels)
    decreases |labels|
  {
    hide CausesHappened;
    if labels == [] {
      NothingTold();
    } else {
      var before, l := labels[..|labels| - 1], labels[|labels| - 1];
      RunCauses(before);
      CausesStep(before, l);
      assert before + [l] == labels;
    }
  }

  /** In every run a request that was told it was answered had an answer taken up, one told that it was
      cancelled was cancelled, one told that it timed out had a deadline that had passed when the timer
      looked, and one told that the session closed was pending at a close. */
  lemma {:induction false} CompletedForItsCause(labels: seq<Label>, k: nat)
    requires k < |Exec(labels).completions|
    ensures var c := Exec(labels).completions[k]; Happened(labels, c.id, c.cause)
  {
    hide Happened;
    hide Exec;
    RunCauses(labels);
    var s := Exec(labels);
    assert WasTold(s, s.completions[k].id, s.completions[k].cause);
  }

  /** A completion says what its call was about. */
  lemma {:induction false} CallTellsItsCause(labels: seq<Label>, call: nat, id: RequestId, l: Label, cause: Cause)
    requires call !in Exec(labels).calls && id in Exec(labels).tables.pending
    requires match cause
             case Responded => l == Respond(call, id)
             case Cancelled => l == Cancel(call, id)
             case TimedOut => l == Expire(call) && IsOverdue(Exec(labels), id)
             case Closed => false
    ensures var (s, s') := (Exec(labels), Exec(labels + [l] + [Take(call, id)] + [Run(call, id)]));
            s'.completions == s.completions + [Completion(id, s.tables.pending[id], cause)]
  {
    hide Exec;
    var s := Exec(labels);
    ExecNext(labels, l);
    var s1 := Exec(labels + [l]);
    assert call in s1.calls && IsRemoving(s1, call) && id in s1.calls[call].todo && s1.calls[call].held == map[];
    assert s1.tables.pending == s.tables.pending && s1.completions == s.completions;
    ExecNext(labels + [l], Take(call, id));
    ExecNext(labels + [l] + [Take(call, id)], Run(call, id));
  }

  /** A close tells every request that was pending. */
  lemma {:induction false} CloseTellsPending(labels: seq<Label>, call: nat, id: RequestId)
    requires call !in Exec(labels).calls && id in Exec(labels).tables.pending
    ensures var (s, s') := (Exec(labels), Exec(labels + [ClearTables(call)] + [SwapPending(call)] + [Run(call, id)]));
            s'.completions == s.completions + [Completion(id, s.tables.pending[id], Closed)]
  {
    hide Exec;
    ExecNext(labels, ClearTables(call));
    ExecNext(labels + [ClearTables(call)], SwapPending(call));
    ExecNext(labels + [ClearTables(call)] + [SwapPending(call)], Run(call, id));
  }

  // ------------------------------------------------------------ what a close and a notification do at once

  /** A close that is not disturbed leaves no deadline, no progress callback and no pending request. */
  lemma {:induction false} CloseEmptiesTables(labels: seq<Label>, call: nat)
    requires call !in Exec(labels).calls
    ensures var s' := Exec(labels + [ClearTables(call)]);
            s'.tables.deadlines == map[] && s'.tables.progress == map[] && s'.tables.pending == Exec(labels).tables.pending
    ensures Exec(labels + [ClearTables(call)] + [SwapPending(call)]).tables == Tables(Exec(labels).tables.nextId, map[], map[], map[])
  {
    hide Exec;
    ExecNext(labels, ClearTables(call));
    ExecNext(labels + [ClearTables(call)], SwapPending(call));
  }

  /** A progress notification gives every request with its token a full timeout from now, and is nothing
      to the others. */
  lemma {:induction false} ProgressGivesFullTimeout(labels: seq<Label>, token: RequestId, id: RequestId)
    ensures var (s, s') := (Exec(labels), Exec(labels + [Progress(token)]));
            && (id in s'.tables.deadlines <==> id in s.tables.deadlines)
            && (id in s.tables.deadlines ==>
                  var (d, d') := (s.tables.deadlines[id], s'.tables.deadlines[id]);
                  d' == if d.token == Some(token) then d.(at := s.now + d.timeout) else d)
            && s'.tables.pending == s.tables.pending && s'.tables.progress == s.tables.progress
  {
    hide Exec;
    ExecNext(labels, Progress(token));
  }

  /** A sender's three regions, undisturbed: the request is pending under a new id, and has a deadline
      exactly when its timeout is positive. */
  lemma {:induction false} SentAndTracked(labels: seq<Label>, call: nat, callback: Callback, options: Options)
    requires call !in Exec(labels).calls
    ensures var (s, s') := (Exec(labels), Exec(labels + [Send(call, callback, options)] + [Register(call)] + [Track(call)]));
            var id := Number(s.tables.nextId);
            && s'.tables.nextId == s.tables.nextId + 1 && s'.calls == s.calls
            && s'.tables.pending == s.tables.pending[id := callback]
            && (if options.timeout.Some? && options.timeout.value > 0
                then s'.tables.deadlines == s.tables.deadlines[id := Deadline(s.now + options.timeout.value, options.timeout.value, options.token)]
                else s'.tables.deadlines == s.tables.deadlines)
            && s'.tables.progress == if options.token.Some? && options.onProgress.Some?
                                     then s.tables.progress[options.token.value := options.onProgress.value] else s.tables.progress
  {
    hide Exec;
    var sent := labels + [Send(call, callback, options)];
    ExecNext(labels, Send(call, callback, options));
    ExecNext(sent, Register(call));
    ExecNext(sent + [Register(call)], Track(call));
    var s := Exec(labels);
    assert s.calls[call := Registering(Number(s.tables.nextId), callback, options)]
                  [call := Tracking(Number(s.tables.nextId), options)] - {call} == s.calls;
  }

  /** Time passes by as much as it does. */
  lemma {:induction false} TimePasses(labels: seq<Label>, elapsed: nat)
    ensures Exec(labels + [Tick(elapsed)]) == Exec(labels).(now := Exec(labels).now + elapsed)
  {
    hide Exec;
    ExecNext(labels, Tick(elapsed));
  }
}
