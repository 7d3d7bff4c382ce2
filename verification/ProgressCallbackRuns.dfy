/** Which progress callbacks stay registered, in every interleaving of a session's regions. */
module ProgressCallbackRuns {
  import opened Correlation
  import opened CorrelationRuns
  import opened Identifiers
  import opened Wrappers

  // ------------------------------------------------------------ every callback has an owner

  /** A deadline belongs to a registered timed request and carries that request's token. */
  ghost predicate DeadlinesOwned(s: State) {
    forall id :: id in s.tables.deadlines ==>
      && id in s.registered && Timed(s.registered[id].options)
      && s.tables.deadlines[id].token == s.registered[id].options.token
  }

  ghost predicate CarriesToken(s: State, id: RequestId, token: RequestId) {
    id in s.tables.deadlines && s.tables.deadlines[id].token == Some(token)
  }

  predicate UsesToken(s: State, id: RequestId, token: RequestId) {
    id in s.registered && s.registered[id].options.token == Some(token)
  }

  /** The request asked for progress under this token and has no timeout. */
  predicate UntimedUser(s: State, id: RequestId, token: RequestId) {
    UsesToken(s, id, token) && s.registered[id].options.onProgress.Some? && !Timed(s.registered[id].options)
  }

  ghost predicate ProgressOwned(s: State) {
    forall token :: token in s.tables.progress ==> exists id :: CarriesToken(s, id, token) || UntimedUser(s, id, token)
  }

  lemma {:induction false} DeadlinesOwnedPreserved(s: State, l: Label)
    requires Enabled(s, l) && IdsInvariant(s) && DeadlinesOwned(s)
    ensures DeadlinesOwned(Apply(s, l))
  {
    forall id | id in Apply(s, l).tables.deadlines
      ensures var s' := Apply(s, l);
              && id in s'.registered && Timed(s'.registered[id].options)
              && s'.tables.deadlines[id].token == s'.registered[id].options.token
    {
      DeadlineOrigin(s, l, id);
    }
  }

  /** What a step does to the progress callbacks besides adding one: it takes out exactly the tokens
      of the deadlines it takes out. */
  lemma {:induction false} ProgressStep(s: State, l: Label, token: RequestId)
    requires Enabled(s, l) && IdsInvariant(s) && DeadlinesOwned(s) && token in Apply(s, l).tables.progress
    ensures || (token in s.tables.progress && forall id :: CarriesToken(s, id, token) ==> CarriesToken(Apply(s, l), id, token))
            || (l.Track? && UsesToken(s, s.calls[l.call].id, token) && s.calls[l.call].options.onProgress.Some?)
  {
    var s' := Apply(s, l);
    if token in s.tables.progress {
      forall id | CarriesToken(s, id, token)
        ensures CarriesToken(s', id, token) || l.Track?
      {
      }
    }
  }

  lemma {:induction false} ProgressOwnedPreserved(s: State, l: Label)
    requires Enabled(s, l) && IdsInvariant(s) && DeadlinesOwned(s) && ProgressOwned(s)
    ensures ProgressOwned(Apply(s, l))
  {
    var s' := Apply(s, l);
    hide DeadlinesOwned;
    forall token | token in s'.tables.progress
      ensures exists id :: CarriesToken(s', id, token) || UntimedUser(s', id, token)
    {
      ProgressStep(s, l, token);
      if l.Track? && UsesToken(s, s.calls[l.call].id, token) && s.calls[l.call].options.onProgress.Some? {
        var id := s.calls[l.call].id;
        assert CarriesToken(s', id, token) || UntimedUser(s', id, token);
      } else {
        var id :| CarriesToken(s, id, token) || UntimedUser(s, id, token);
        RegisteredKept(s, l, id);
        assert CarriesToken(s', id, token) || UntimedUser(s', id, token);
      }
    }
  }

  lemma RegisteredKept(s: State, l: Label, id: RequestId)
    requires Enabled(s, l) && IdsInvariant(s) && id in s.registered
    ensures id in Apply(s, l).registered && Apply(s, l).registered[id] == s.registered[id]
  {
  }

  ghost predicate BeingTracked(s: State, id: RequestId) {
    exists c :: c in s.calls && s.calls[c].Tracking? && s.calls[c].id == id
  }

  /** The one registered request that uses the token; it wants progress. */
  ghost predicate OnlyUser(s: State, id: RequestId, token: RequestId) {
    && UsesToken(s, id, token) && s.registered[id].options.onProgress.Some?
    && forall other :: UsesToken(s, other, token) ==> other == id
  }

  /** The token's only user, once its call is done. */
  ghost predicate SoleUser(s: State, id: RequestId, token: RequestId) {
    OnlyUser(s, id, token) && !BeingTracked(s, id)
  }

  /** The callback of a token's only user is there exactly as long as the request has a deadline, or
      for ever when it has none. */
  ghost predicate CallbackFollows(s: State, id: RequestId, token: RequestId)
    requires id in s.registered
  {
    var options := s.registered[id].options;
    && (token in s.tables.progress <==> !Timed(options) || id in s.tables.deadlines)
    && (token in s.tables.progress ==> Some(s.tables.progress[token]) == options.onProgress)
  }

  ghost predicate CallbacksFollow(s: State) {
    forall id, token :: SoleUser(s, id, token) ==> CallbackFollows(s, id, token)
  }

  lemma {:induction false} TrackingKept(s: State, l: Label, id: RequestId)
    requires Enabled(s, l)
    ensures BeingTracked(s, id) ==> BeingTracked(Apply(s, l), id) || (l.Track? && s.calls[l.call].id == id)
    ensures l.Register? && s.calls[l.call].id == id ==> BeingTracked(Apply(s, l), id)
  {
    var s' := Apply(s, l);
    if BeingTracked(s, id) {
      var c :| c in s.calls && s.calls[c].Tracking? && s.calls[c].id == id;
      assert !(l.Track? && l.call == c) ==> c in s'.calls && s'.calls[c] == s.calls[c];
    }
    if l.Register? {
      assert s'.calls[l.call].Tracking? && s'.calls[l.call].id == s.calls[l.call].id;
    }
  }

  /** Except for the step that tracks it, a sole user was one before. */
  lemma {:induction false} SoleUserBefore(s: State, l: Label, id: RequestId, token: RequestId)
    requires Enabled(s, l) && IdsInvariant(s) && SoleUser(Apply(s, l), id, token)
    ensures SoleUser(s, id, token) || (l.Track? && s.calls[l.call].id == id)
    ensures OnlyUser(s, id, token)
  {
    var s' := Apply(s, l);
    forall other | UsesToken(s, other, token)
      ensures other == id
    {
      RegisteredKept(s, l, other);
      assert UsesToken(s', other, token);
    }
    TrackingKept(s, l, id);
  }

  lemma {:induction false} CallbackFollowsAfter(s: State, l: Label, id: RequestId, token: RequestId)
    requires Enabled(s, l) && !l.ClearTables? && IdsInvariant(s) && DeadlinesOwned(s) && OnlyUser(s, id, token)
    requires CallbackFollows(s, id, token) || (l.Track? && s.calls[l.call].id == id)
    ensures id in Apply(s, l).registered && CallbackFollows(Apply(s, l), id, token)
  {
    RegisteredKept(s, l, id);
    assert forall other :: other in s.tables.deadlines && s.tables.deadlines[other].token == Some(token) ==>
      UsesToken(s, other, token);
    assert l.Track? ==> UsesToken(s, s.calls[l.call].id, token) || s.calls[l.call].options.token != Some(token);
  }

  lemma {:induction false} CallbacksFollowPreserved(s: State, l: Label)
    requires Enabled(s, l) && !l.ClearTables? && IdsInvariant(s) && DeadlinesOwned(s) && CallbacksFollow(s)
    ensures CallbacksFollow(Apply(s, l))
  {
    hide Apply;
    hide IdsInvariant;
    hide DeadlinesOwned;
    hide CallbackFollows;
    forall id, token | SoleUser(Apply(s, l), id, token)
      ensures CallbackFollows(Apply(s, l), id, token)
    {
      SoleUserBefore(s, l, id, token);
      CallbackFollowsAfter(s, l, id, token);
    }
  }

  // ------------------------------------------------------------ over whole runs

  lemma {:induction false} RunOwned(labels: seq<Label>)
    ensures DeadlinesOwned(Exec(labels)) && ProgressOwned(Exec(labels))
    decreases |labels|
  {
    if labels != [] {
      RunOwned(labels[..|labels| - 1]);
      var s, l := Exec(labels[..|labels| - 1]), labels[|labels| - 1];
      if Enabled(s, l) {
        RunInvariant(labels[..|labels| - 1]);
        DeadlinesOwnedPreserved(s, l);
        ProgressOwnedPreserved(s, l);
      }
    }
  }

  /** In every run a registered progress callback has a deadline that will take it out, or an untimed
      request that asked for it. */
  lemma {:induction false} ProgressCallbackOwned(labels: seq<Label>, token: RequestId)
    requires token in Exec(labels).tables.progress
    ensures exists id :: CarriesToken(Exec(labels), id, token) || UntimedUser(Exec(labels), id, token)
  {
    RunOwned(labels);
  }

  ghost predicate NoClose(labels: seq<Label>) {
    forall i :: 0 <= i < |labels| ==> !labels[i].ClearTables?
  }

  lemma {:induction false} LiveSessionCallbacks(labels: seq<Label>)
    requires NoClose(labels)
    ensures CallbacksFollow(Exec(labels))
    decreases |labels|
  {
    hide CallbacksFollow;
    if labels == [] {
      NobodyYet();
    } else {
      var s, l := Exec(labels[..|labels| - 1]), labels[|labels| - 1];
      LiveSessionCallbacks(labels[..|labels| - 1]);
      RunInvariant(labels[..|labels| - 1]);
      RunOwned(labels[..|labels| - 1]);
      if Enabled(s, l) {
        CallbacksFollowPreserved(s, l);
      }
    }
  }

  lemma NobodyYet()
    ensures CallbacksFollow(START)
  {
  }

  // ------------------------------------------------------------ what takes a deadline out

  /** The answer to a request, or its cancellation. */
  predicate Clears(l: Label, id: RequestId) {
    (l.Respond? || l.Cancel?) && l.id == id
  }

  /** A step that takes the request's deadline out, if there is one. */
  predicate TakesOut(s: State, l: Label, id: RequestId) {
    Clears(l, id) || (l.Expire? && id in Due(s.tables.deadlines, s.now))
  }

  /** In the course of the run the request was answered or cancelled when its deadline had not been set yet. */
  ghost predicate Overtaken(labels: seq<Label>, id: RequestId) {
    if labels == [] then false
    else
      var s, l := Exec(labels[..|labels| - 1]), labels[|labels| - 1];
      Overtaken(labels[..|labels| - 1], id) || (Enabled(s, l) && !IsSet(s, id) && Clears(l, id))
  }

  /** It was answered, cancelled or expired after its deadline had been set. */
  ghost predicate Released(labels: seq<Label>, id: RequestId) {
    if labels == [] then false
    else
      var s, l := Exec(labels[..|labels| - 1]), labels[|labels| - 1];
      Released(labels[..|labels| - 1], id) || (Enabled(s, l) && IsSet(s, id) && TakesOut(s, l, id))
  }

  lemma {:induction false} SetStays(s: State, l: Label, id: RequestId)
    requires Enabled(s, l)
    ensures IsSet(s, id) ==> IsSet(Apply(s, l), id)
    ensures IsSet(Apply(s, l), id) ==> IsSet(s, id) || (l.Track? && s.calls[l.call].id == id && Timed(s.calls[l.call].options))
    ensures l.Track? && Timed(s.calls[l.call].options) ==> IsSet(Apply(s, l), s.calls[l.call].id)
  {
    var s' := Apply(s, l);
    NewEvent(s, l);
    hide Apply;
    if IsSet(s, id) {
      var k :| 0 <= k < |s.times| && s.times[k].SetAt? && s.times[k].id == id;
      assert s'.times[k].SetAt? && s'.times[k].id == id;
    }
    if IsSet(s', id) {
      var k :| 0 <= k < |s'.times| && s'.times[k].SetAt? && s'.times[k].id == id;
      assert k < |s.times| ==> s.times[k].SetAt? && s.times[k].id == id;
    }
    if l.Track? && Timed(s.calls[l.call].options) {
      assert s'.times[|s.times|].SetAt? && s'.times[|s.times|].id == s.calls[l.call].id;
    }
  }

  lemma {:induction false} DeadlineStep(s: State, l: Label, id: RequestId)
    requires Enabled(s, l) && !l.ClearTables? && SetOnce(s)
    ensures IsSet(s, id) ==> (id in Apply(s, l).tables.deadlines <==> id in s.tables.deadlines && !TakesOut(s, l, id))
    ensures l.Track? && Timed(s.calls[l.call].options) ==> s.calls[l.call].id in Apply(s, l).tables.deadlines
  {
  }

  lemma {:induction false} ReleasedFollows(labels: seq<Label>, id: RequestId)
    requires NoClose(labels)
    ensures var s := Exec(labels);
            && (IsSet(s, id) ==> (id in s.tables.deadlines <==> !Released(labels, id)))
            && (Released(labels, id) ==> IsSet(s, id))
    decreases |labels|
  {
    hide SetOnce;
    hide IsSet;
    hide Apply;
    hide Enabled;
    if labels == [] {
      NothingSet(id);
    } else {
      var s, l := Exec(labels[..|labels| - 1]), labels[|labels| - 1];
      ReleasedFollows(labels[..|labels| - 1], id);
      RunInvariant(labels[..|labels| - 1]);
      if Enabled(s, l) {
        SetStays(s, l, id);
        DeadlineStep(s, l, id);
      }
    }
  }

  lemma NothingSet(id: RequestId)
    ensures !IsSet(START, id)
  {
  }

  // ------------------------------------------------------------ what completion leaves behind

  /** Some call is on its way to run the request's callback. */
  ghost predicate Departs(s: State, call: nat, id: RequestId) {
    IsRemoving(s, call) && (id in s.calls[call].todo || id in s.calls[call].held)
  }

  ghost predicate Departing(s: State, id: RequestId) {
    Completed(s, id) || exists c :: Departs(s, c, id)
  }

  ghost predicate NoneClosing(s: State) {
    forall c :: c in s.calls ==> !s.calls[c].Closing?
  }

  /** The deadline is there, or will yet be set. */
  ghost predicate Loose(s: State, id: RequestId) {
    id in s.tables.deadlines || !IsSet(s, id)
  }

  lemma {:induction false} DepartsBefore(s: State, l: Label, c: nat, id: RequestId)
    requires Enabled(s, l) && NoneClosing(s) && Departs(Apply(s, l), c, id)
    ensures Departs(s, c, id) || TakesOut(s, l, id)
  {
  }

  lemma {:induction false} DepartingBefore(s: State, l: Label, id: RequestId)
    requires Enabled(s, l) && NoneClosing(s) && Departing(Apply(s, l), id)
    ensures Departing(s, id) || TakesOut(s, l, id)
  {
    CompletedBefore(s, l, id);
    if Completed(Apply(s, l), id) {
      assert l.Run? && l.id == id ==> Departs(s, l.call, id);
    } else {
      var c :| Departs(Apply(s, l), c, id);
      DepartsBefore(s, l, c, id);
    }
  }

  lemma {:induction false} LooseBefore(s: State, l: Label, id: RequestId)
    requires Enabled(s, l) && !l.ClearTables? && SetOnce(s) && DeadlinesExact(s) && Loose(Apply(s, l), id)
    ensures Loose(s, id) && (TakesOut(s, l, id) ==> Clears(l, id) && !IsSet(s, id))
  {
    SetStays(s, l, id);
    DeadlineStep(s, l, id);
    if id in s.tables.deadlines {
      assert DeadlineExact(s, id, s.tables.deadlines[id]);
    } else if id in Apply(s, l).tables.deadlines {
      DeadlineOrigin(s, l, id);
    }
  }

  lemma {:induction false} NobodyCloses(labels: seq<Label>)
    requires NoClose(labels)
    ensures NoneClosing(Exec(labels))
    decreases |labels|
  {
    if labels != [] {
      NobodyCloses(labels[..|labels| - 1]);
    }
  }

  /** A request whose callback is on its way while it still has, or will get, a deadline was overtaken. */
  lemma {:induction false} LooseEndsAreOvertaken(labels: seq<Label>, id: RequestId)
    requires NoClose(labels) && Departing(Exec(labels), id) && Loose(Exec(labels), id)
    ensures Overtaken(labels, id)
    decreases |labels|
  {
    hide Apply;
    hide SetOnce;
    hide DeadlinesExact;
    hide Departing;
    hide Loose;
    hide Enabled;
    hide TakesOut;
    if labels == [] {
      NothingDeparts(id);
    } else {
      var before, l := labels[..|labels| - 1], labels[|labels| - 1];
      var s := Exec(before);
      RunInvariant(before);
      NobodyCloses(before);
      if Enabled(s, l) {
        DepartingBefore(s, l, id);
        LooseBefore(s, l, id);
      }
      if Departing(s, id) {
        LooseEndsAreOvertaken(before, id);
      }
    }
  }

  lemma {:induction false} NothingDeparts(id: RequestId)
    ensures !Departing(Exec([]), id)
  {
  }

  lemma {:induction false} RegisteredBefore(s: State, l: Label, id: RequestId)
    requires Enabled(s, l) && id in Apply(s, l).registered
    ensures id in s.registered || (l.Register? && s.calls[l.call].id == id)
  {
  }

  /** A timed request is being tracked until its deadline is set. */
  lemma {:induction false} TimedIsSet(labels: seq<Label>, id: RequestId)
    requires id in Exec(labels).registered && Timed(Exec(labels).registered[id].options)
    ensures BeingTracked(Exec(labels), id) || IsSet(Exec(labels), id)
    decreases |labels|
  {
    if labels != [] {
      var before, l := labels[..|labels| - 1], labels[|labels| - 1];
      var s := Exec(before);
      RunInvariant(before);
      hide Apply;
      hide IsSet;
      hide BeingTracked;
      if Enabled(s, l) {
        RegisteredBefore(s, l, id);
        TrackingKept(s, l, id);
        SetStays(s, l, id);
        if id in s.registered {
          RegisteredKept(s, l, id);
          TimedIsSet(before, id);
        }
      } else {
        TimedIsSet(before, id);
      }
    }
  }

  lemma OnlyTimedIsSet(s: State, id: RequestId)
    requires SetAsAsked(s)
    ensures IsSet(s, id) ==> id in s.registered && Timed(s.registered[id].options)
  {
    assert forall k :: 0 <= k < |s.times| && s.times[k].SetAt? ==> AsAsked(s, s.times[k]);
  }

  /** In a session that has not closed, the progress callback of a token that one request uses has been
      dropped exactly when the request was answered, cancelled or expired after its deadline had been
      set; that is when it is timed and has no deadline any more. */
  lemma {:induction false} ProgressCallbackDropped(labels: seq<Label>, id: RequestId, token: RequestId)
    requires NoClose(labels) && SoleUser(Exec(labels), id, token)
    ensures var s := Exec(labels);
            && (token !in s.tables.progress <==> Released(labels, id))
            && (token !in s.tables.progress <==> Timed(s.registered[id].options) && id !in s.tables.deadlines)
  {
    hide Exec;
    hide Released;
    var s := Exec(labels);
    LiveSessionCallbacks(labels);
    assert CallbackFollows(s, id, token);
    ReleasedFollows(labels, id);
    if Timed(s.registered[id].options) {
      TimedIsSet(labels, id);
    } else {
      RunInvariant(labels);
      OnlyTimedIsSet(s, id);
    }
  }

  /** Completing a timed request drops its progress callback, unless the request was overtaken. */
  lemma {:induction false} CompletionDropsCallback(labels: seq<Label>, id: RequestId, token: RequestId)
    requires NoClose(labels) && SoleUser(Exec(labels), id, token)
    requires Timed(Exec(labels).registered[id].options) && Completed(Exec(labels), id) && !Overtaken(labels, id)
    ensures token !in Exec(labels).tables.progress
  {
    hide Exec;
    hide Overtaken;
    if Loose(Exec(labels), id) {
      LooseEndsAreOvertaken(labels, id);
    }
    ProgressCallbackDropped(labels, id, token);
  }

  /** An untimed request's callback is never dropped: it is still registered after completion. */
  lemma {:induction false} UntimedRequestKeepsProgressCallback(labels: seq<Label>, id: RequestId, token: RequestId)
    requires NoClose(labels) && SoleUser(Exec(labels), id, token) && UntimedUser(Exec(labels), id, token)
    requires Completed(Exec(labels), id)
    ensures var s := Exec(labels);
            token in s.tables.progress && Some(s.tables.progress[token]) == s.registered[id].options.onProgress
  {
    hide Exec;
    LiveSessionCallbacks(labels);
    assert CallbackFollows(Exec(labels), id, token);
  }

  // ------------------------------------------------------------ requests that are overtaken

  /** A peer may answer any id, even one that has not been sent. A timed request that was overtaken
      in that way keeps its deadline and its callback, whether or not it is completed by then,
      until a later answer to its id, a cancellation or the timer takes them out. */
  lemma {:induction false} OvertakenKeepsCallback(labels: seq<Label>, id: RequestId, token: RequestId)
    requires NoClose(labels) && SoleUser(Exec(labels), id, token)
    requires Timed(Exec(labels).registered[id].options) && Overtaken(labels, id) && !Released(labels, id)
    ensures var s := Exec(labels);
            && id in s.tables.deadlines && token in s.tables.progress
            && Some(s.tables.progress[token]) == s.registered[id].options.onProgress
  {
    hide Exec;
    hide Overtaken;
    hide Released;
    ProgressCallbackDropped(labels, id, token);
    LiveSessionCallbacks(labels);
    assert CallbackFollows(Exec(labels), id, token);
  }

  /** In particular the step that tracks a completed request gives it a deadline and a callback. */
  lemma {:induction false} LateTrackingOutlivesCompletion(labels: seq<Label>, call: nat, id: RequestId, token: RequestId)
    requires var s := Exec(labels);
             call in s.calls && s.calls[call].Tracking? && s.calls[call].id == id && Completed(s, id)
    requires var o := Exec(labels).calls[call].options; Timed(o) && o.token == Some(token) && o.onProgress.Some?
    ensures var s' := Exec(labels + [Track(call)]);
            Completed(s', id) && CarriesToken(s', id, token) && token in s'.tables.progress
  {
    hide Exec;
    ExecNext(labels, Track(call));
    CompletedBefore(Exec(labels), Track(call), id);
  }

  // ------------------------------------------------------------ runs in which that happens

  const FIRST := Number(1)

  /** The answer to a request is taken up between its registration and its tracking. */
  function Overtaking(callback: Callback, options: Options): seq<Label> {
    [Send(0, callback, options), Register(0), Respond(1, FIRST)]
  }

  lemma {:induction false} AnswerOvertakes(callback: Callback, options: Options)
    ensures var s := Exec(Overtaking(callback, options));
            && s == START.(tables := Tables(2, map[FIRST := callback], map[], map[]),
                           registered := map[FIRST := Request(callback, options)],
                           calls := map[0 := Tracking(FIRST, options), 1 := Removing({FIRST}, map[], Responded)])
  {
    hide Exec;
    Nothing();
    var l1 := [Send(0, callback, options)];
    assert [] + [Send(0, callback, options)] == l1;
    ExecNext([], Send(0, callback, options));
    assert Exec(l1) == START.(tables := EMPTY.(nextId := 2), calls := map[0 := Registering(FIRST, callback, options)]);
    ExecNext(l1, Register(0));
    var l2 := l1 + [Register(0)];
    assert Exec(l2) == START.(tables := Tables(2, map[FIRST := callback], map[], map[]),
                              registered := map[FIRST := Request(callback, options)],
                              calls := map[0 := Tracking(FIRST, options)]);
    ExecNext(l2, Respond(1, FIRST));
    assert l2 + [Respond(1, FIRST)] == Overtaking(callback, options);
  }

  /** Taking and running the callback of the overtaken request completes it. */
  lemma {:induction false} TakenAndRun(labels: seq<Label>, callback: Callback)
    requires var s := Exec(labels);
             && FIRST in s.tables.pending && s.tables.pending[FIRST] == callback && s.completions == []
             && 1 in s.calls && s.calls[1] == Removing({FIRST}, map[], Responded)
    ensures var (s, s') := (Exec(labels), Exec(labels + [Take(1, FIRST)] + [Run(1, FIRST)]));
            && Completed(s', FIRST) && s'.registered == s.registered && s'.times == s.times
            && s'.tables == s.tables.(pending := s.tables.pending - {FIRST}) && s'.calls - {1} == s.calls - {1}
            && 1 in s'.calls && s'.calls[1].Removing?
  {
    hide Exec;
    var s := Exec(labels);
    ExecNext(labels, Take(1, FIRST));
    var t := Exec(labels + [Take(1, FIRST)]);
    assert t == s.(tables := s.tables.(pending := s.tables.pending - {FIRST}),
                   calls := s.calls[1 := Removing({FIRST} - {FIRST}, map[FIRST := callback], Responded)]);
    ExecNext(labels + [Take(1, FIRST)], Run(1, FIRST));
    assert Exec(labels + [Take(1, FIRST)] + [Run(1, FIRST)]).completions[0].id == FIRST;
  }

  /** The request is completed before it is tracked. */
  lemma {:induction false} AnswerOvertakesTracking(options: Options, callback: Callback)
    ensures var s := Exec(Overtaking(callback, options) + [Take(1, FIRST)] + [Run(1, FIRST)]);
            && Completed(s, FIRST) && 0 in s.calls && s.calls[0] == Tracking(FIRST, options)
            && s.registered == map[FIRST := Request(callback, options)]
  {
    hide Exec;
    AnswerOvertakes(callback, options);
    TakenAndRun(Overtaking(callback, options), callback);
    var s' := Exec(Overtaking(callback, options) + [Take(1, FIRST)] + [Run(1, FIRST)]);
    assert 0 in s'.calls - {1} && (s'.calls - {1})[0] == Tracking(FIRST, options);
  }

  /** The request is tracked between the answer and its callback: it is completed with its deadline
      and its progress callback in place. */
  lemma {:induction false} TrackingBetweenAnswerAndCallback(options: Options, callback: Callback, token: RequestId)
    requires Timed(options) && options.token == Some(token) && options.onProgress.Some?
    ensures var s := Exec(Overtaking(callback, options) + [Track(0)] + [Take(1, FIRST)] + [Run(1, FIRST)]);
            && Completed(s, FIRST) && SoleUser(s, FIRST, token)
            && FIRST in s.tables.deadlines && token in s.tables.progress
  {
    hide Exec;
    AnswerOvertakes(callback, options);
    var labels := Overtaking(callback, options) + [Track(0)];
    ExecNext(Overtaking(callback, options), Track(0));
    TakenAndRun(labels, callback);
    var s, s' := Exec(labels), Exec(labels + [Take(1, FIRST)] + [Run(1, FIRST)]);
    assert UsesToken(s', FIRST, token);
    assert s'.calls - {1} == s.calls - {1} == map[];
    assert forall c :: c in s'.calls ==> c == 1 || c in s'.calls - {1};
  }

  lemma {:induction false} Nothing()
    ensures Exec([]) == START
  {
  }
}
