/** Request correlation: the tables of `Session` and `MessageRouter`, one method per
    lock-protected region, and the same regions as functions on table values. */
module Correlation {
  import opened Identifiers
  import opened Wrappers

  // A response callback or progress callback, by identity.
  type Callback = nat

  datatype Deadline = Deadline(at: nat, timeout: nat, token: Option<RequestId>)

  /** Per-request options; times are in milliseconds of a steady clock. */
  datatype Options = Options(timeout: Option<int>, token: Option<RequestId>, onProgress: Option<Callback>)

  predicate Timed(o: Options) {
    o.timeout.Some? && o.timeout.value > 0
  }

  datatype Tables = Tables(
    nextId: nat,
    pending: map<RequestId, Callback>,
    deadlines: map<RequestId, Deadline>,
    progress: map<RequestId, Callback>)

  const EMPTY := Tables(1, map[], map[], map[])

  // ------------------------------------------------------------ the regions as functions

  /** Timer region of `send_request`, entered when there is something to track. */
  function Tracked(t: Tables, id: RequestId, o: Options, now: nat): Tables {
    t.(deadlines := if Timed(o) then t.deadlines[id := Deadline(now + o.timeout.value, o.timeout.value, o.token)] else t.deadlines,
       progress := if o.token.Some? && o.onProgress.Some? then t.progress[o.token.value := o.onProgress.value] else t.progress)
  }

  /** `clear_tracking`. */
  function Cleared(t: Tables, id: RequestId): Tables {
    if id !in t.deadlines then t
    else
      var token := t.deadlines[id].token;
      t.(deadlines := t.deadlines - {id},
         progress := if token.Some? then t.progress - {token.value} else t.progress)
  }

  predicate IsDue(d: Deadline, now: nat) {
    d.at <= now
  }

  function Due(deadlines: map<RequestId, Deadline>, now: nat): set<RequestId> {
    set id | id in deadlines && IsDue(deadlines[id], now)
  }

  function Tokens(deadlines: map<RequestId, Deadline>, ids: set<RequestId>): set<RequestId> {
    set id | id in ids && id in deadlines && deadlines[id].token.Some? :: deadlines[id].token.value
  }

  /** One pass of the timer over the deadlines. */
  function Expired(t: Tables, now: nat): Tables {
    t.(deadlines := t.deadlines - Due(t.deadlines, now),
       progress := t.progress - Tokens(t.deadlines, Due(t.deadlines, now)))
  }

  function Restarted(d: Deadline, token: RequestId, now: nat): Deadline {
    if d.token == Some(token) then d.(at := now + d.timeout) else d
  }

  /** A progress notification restarts the clock of every deadline with its token. */
  function Progressed(t: Tables, token: RequestId, now: nat): Tables {
    t.(deadlines := map id | id in t.deadlines :: Restarted(t.deadlines[id], token, now))
  }

  // ------------------------------------------------------------ the regions as methods

  class Session {
    var nextRequestId: nat
    var pending: map<RequestId, Callback>
    var deadlines: map<RequestId, Deadline>
    var progressCallbacks: map<RequestId, Callback>

    ghost function Value(): Tables
      reads this
    {
      Tables(nextRequestId, pending, deadlines, progressCallbacks)
    }

    constructor ()
      ensures Value() == EMPTY
    {
      nextRequestId, pending, deadlines, progressCallbacks := 1, map[], map[], map[];
    }

    method IssueId() returns (id: RequestId)
      modifies this`nextRequestId
      ensures id == Number(old(nextRequestId)) && nextRequestId == old(nextRequestId) + 1
    {
      id := Number(nextRequestId);
      nextRequestId := nextRequestId + 1;
    }

    method RegisterPending(id: RequestId, callback: Callback)
      modifies this`pending
      ensures pending == old(pending)[id := callback]
    {
      pending := pending[id := callback];
    }

    method Track(id: RequestId, options: Options, now: nat)
      modifies this`deadlines, this`progressCallbacks
      ensures Value() == Tracked(old(Value()), id, options, now)
    {
      var timed := options.timeout.Some? && options.timeout.value > 0;
      if timed || (options.token.Some? && options.onProgress.Some?) {
        if timed {
          deadlines := deadlines[id := Deadline(now + options.timeout.value, options.timeout.value, options.token)];
        }
        if options.token.Some? && options.onProgress.Some? {
          progressCallbacks := progressCallbacks[options.token.value := options.onProgress.value];
        }
      }
    }

    method ClearTracking(id: RequestId)
      modifies this`deadlines, this`progressCallbacks
      ensures Value() == Cleared(old(Value()), id)
    {
      if id in deadlines {
        if deadlines[id].token.Some? {
          progressCallbacks := progressCallbacks - {deadlines[id].token.value};
        }
        deadlines := deadlines - {id};
      }
    }

    /** The callback leaves the table with the first caller that asks for it. */
    method TakePending(id: RequestId) returns (callback: Option<Callback>)
      modifies this`pending
      ensures callback == if id in old(pending) then Some(old(pending)[id]) else None
      ensures pending == old(pending) - {id}
    {
      if id !in pending {
        return None;
      }
      callback := Some(pending[id]);
      pending := pending - {id};
    }

    method SwapPending() returns (all: map<RequestId, Callback>)
      modifies this`pending
      ensures all == old(pending) && pending == map[]
    {
      all := pending;
      pending := map[];
    }

    method ClearTables()
      modifies this`deadlines, this`progressCallbacks
      ensures deadlines == map[] && progressCallbacks == map[]
    {
      deadlines, progressCallbacks := map[], map[];
    }

    /** The erase-while-iterating loop of the timer: everything that is due, and nothing else. */
    method CollectExpired(now: nat) returns (expired: seq<RequestId>)
      modifies this`deadlines, this`progressCallbacks
      ensures Value() == Expired(old(Value()), now)
      ensures forall id :: id in expired <==> id in old(deadlines) && old(deadlines)[id].at <= now
      ensures forall i, j :: 0 <= i < j < |expired| ==> expired[i] != expired[j]
    {
      expired := [];
      ghost var done: set<RequestId> := {};
      var todo := deadlines.Keys;
      while todo != {}
        invariant done !! todo && done + todo == old(deadlines).Keys
        invariant deadlines == old(deadlines) - (Due(old(deadlines), now) * done)
        invariant progressCallbacks == old(progressCallbacks) - Tokens(old(deadlines), Due(old(deadlines), now) * done)
        invariant forall id :: id in expired <==> id in done && id in Due(old(deadlines), now)
        invariant forall i, j :: 0 <= i < j < |expired| ==> expired[i] != expired[j]
        decreases todo
      {
        var id :| id in todo;
        var due := IsDue(deadlines[id], now);
        if due {
          expired := expired + [id];
          if deadlines[id].token.Some? {
            progressCallbacks := progressCallbacks - {deadlines[id].token.value};
          }
          deadlines := deadlines - {id};
        }
        todo, done := todo - {id}, done + {id};
      }
      assert Due(old(deadlines), now) * done == Due(old(deadlines), now);
    }

    method HandleProgress(token: RequestId, now: nat) returns (callback: Option<Callback>)
      modifies this`deadlines
      ensures Value() == Progressed(old(Value()), token, now)
      ensures callback == if token in progressCallbacks then Some(progressCallbacks[token]) else None
    {
      ghost var done: set<RequestId> := {};
      var todo := deadlines.Keys;
      while todo != {}
        invariant done !! todo && done + todo == old(deadlines).Keys == deadlines.Keys
        invariant forall id :: id in done ==> deadlines[id] == Restarted(old(deadlines)[id], token, now)
        invariant forall id :: id in todo ==> deadlines[id] == old(deadlines)[id]
        decreases todo
      {
        var id :| id in todo;
        var d := deadlines[id];
        if d.token.Some? && d.token.value == token {
          deadlines := deadlines[id := d.(at := now + d.timeout)];
        }
        todo, done := todo - {id}, done + {id};
      }
      callback := if token in progressCallbacks then Some(progressCallbacks[token]) else None;
    }
  }
}
