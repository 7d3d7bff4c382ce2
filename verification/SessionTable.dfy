/** The Mcp-Session-Id table of the multi-session HTTP server, swept lazily on request traffic. */
module SessionTable {
  type Table = map<string, nat>

  /** A timeout of zero or less never expires anything. Times are in milliseconds. */
  datatype Options = Options(idleTimeout: int, allowTermination: bool)

  datatype Verb = Post | Get | Delete | Other

  datatype Frame = Malformed | Frame(hasInitialize: bool)

  /** One HTTP request: when its sweep and its table access read the clock, what it carries, and
      what creating a session for it would yield. An empty `session` means no Mcp-Session-Id header. */
  datatype Request = Request(
    sweptAt: nat, at: nat, verb: Verb, session: string, acceptsStream: bool, frame: Frame,
    freshId: string, factoryWorks: bool)

  datatype Answer =
    | Status(code: nat)
    // A stream is attached to the session, or a POST delivered to it.
    | Served(id: string)

  datatype State = State(entries: Table, closed: multiset<string>)

  const START := State(map[], multiset{})

  // ------------------------------------------------------------ table operations as functions

  /** Idle for longer than the timeout at time `now`. */
  predicate IsIdle(timeout: int, last: nat, now: nat) {
    timeout > 0 && last < now - timeout
  }

  function Idle(entries: Table, timeout: int, now: nat): set<string> {
    set id | id in entries && IsIdle(timeout, entries[id], now)
  }

  function Swept(s: State, timeout: int, now: nat): State {
    var idle := Idle(s.entries, timeout, now);
    State(s.entries - idle, s.closed + multiset(idle))
  }

  predicate Creates(r: Request) {
    r.verb.Post? && r.frame == Frame(true) && r.session == "" && r.factoryWorks
  }

  /** The request looks its session up, which touches it. */
  predicate LooksUp(r: Request) {
    && r.session != ""
    && ((r.verb.Get? && r.acceptsStream) || (r.verb.Post? && r.frame.Frame?))
  }

  predicate Terminates(o: Options, r: Request) {
    r.verb.Delete? && o.allowTermination && r.session != ""
  }

  /** The answer when the request neither creates, looks up nor terminates a session. */
  function OtherAnswer(o: Options, r: Request): nat {
    match r.verb
    case Delete => if r.session == "" then 400 else 405
    case Get => if !r.acceptsStream then 406 else 400
    case Other => 405
    case Post => if r.frame.Malformed? || r.frame == Frame(false) then 400 else 500
  }

  function Handled(o: Options, s: State, r: Request): (State, Answer) {
    var t := Swept(s, o.idleTimeout, r.sweptAt);
    if Creates(r) then (t.(entries := t.entries[r.freshId := r.at]), Served(r.freshId))
    else if LooksUp(r) then
      if r.session in t.entries then (t.(entries := t.entries[r.session := r.at]), Served(r.session)) else (t, Status(404))
    else if Terminates(o, r) then
      if r.session in t.entries then
        (State(t.entries - {r.session}, t.closed + multiset{r.session}), Status(200))
      else (t, Status(404))
    else (t, Status(OtherAnswer(o, r)))
  }

  // ------------------------------------------------------------ the registry and the server

  class SessionRegistry {
    var entries: Table

    constructor ()
      ensures entries == map[]
    {
      entries := map[];
    }

    method Create(id: string, now: nat)
      modifies this
      ensures entries == old(entries)[id := now]
    {
      entries := entries[id := now];
    }

    method Find(id: string, now: nat) returns (found: bool)
      modifies this
      ensures found == (id in old(entries))
      ensures entries == if found then old(entries)[id := now] else old(entries)
    {
      if id !in entries {
        return false;
      }
      entries := entries[id := now];
      found := true;
    }

    method Remove(id: string) returns (found: bool)
      modifies this
      ensures found == (id in old(entries))
      ensures entries == if found then old(entries) - {id} else old(entries)
    {
      if id !in entries {
        return false;
      }
      entries := entries - {id};
      found := true;
    }

    /** The erase-while-iterating sweep. */
    method RemoveIdle(timeout: int, now: nat) returns (evicted: multiset<string>)
      modifies this
      ensures entries == old(entries) - Idle(old(entries), timeout, now)
      ensures evicted == multiset(Idle(old(entries), timeout, now))
    {
      evicted := multiset{};
      if timeout <= 0 {
        assert Idle(entries, timeout, now) == {};
        return;
      }
      var cutoff := now - timeout;
      ghost var before, idle := entries, Idle(entries, timeout, now);
      assert forall id :: id in before ==> (id in idle <==> before[id] < cutoff);
      ghost var gone: set<string> := {};
      var todo := entries.Keys;
      while todo != {}
        invariant todo <= before.Keys && gone !! todo && gone <= idle
        invariant forall id :: id in idle && id !in todo ==> id in gone
        invariant entries == before - gone
        invariant evicted == multiset(gone)
        decreases todo
      {
        hide Idle;
        var id :| id in todo;
        if entries[id] < cutoff {
          evicted := evicted + multiset{id};
          entries := entries - {id};
          assert before - (gone + {id}) == (before - gone) - {id};
          gone := gone + {id};
        }
        todo := todo - {id};
      }
      assert gone == idle;
    }

    method RemoveAll() returns (all: multiset<string>)
      modifies this
      ensures all == multiset(old(entries).Keys) && entries == map[]
    {
      all := multiset(entries.Keys);
      entries := map[];
    }
  }

  class HttpSessionServer {
    const options: Options
    const registry: SessionRegistry
    // How often the closed callback has run for each session.
    var closed: multiset<string>

    ghost function Value(): State
      reads this, registry
    {
      State(registry.entries, closed)
    }

    constructor (options: Options)
      ensures fresh(registry) && Value() == START && this.options == options
    {
      this.options, closed := options, multiset{};
      registry := new SessionRegistry();
    }

    method HandleRequest(r: Request) returns (answer: Answer)
      modifies this, registry
      ensures (Value(), answer) == Handled(options, old(Value()), r)
    {
      var evicted := registry.RemoveIdle(options.idleTimeout, r.sweptAt);
      closed := closed + evicted;
      if r.verb.Delete? {
        if r.session == "" {
          return Status(400);
        }
        if !options.allowTermination {
          return Status(405);
        }
        var found := registry.Remove(r.session);
        if !found {
          return Status(404);
        }
        closed := closed + multiset{r.session};
        return Status(200);
      }
      if r.verb.Get? {
        if !r.acceptsStream {
          return Status(406);
        }
        if r.session == "" {
          return Status(400);
        }
        var found := registry.Find(r.session, r.at);
        return if found then Served(r.session) else Status(404);
      }
      if !r.verb.Post? {
        return Status(405);
      }
      if r.frame.Malformed? {
        return Status(400);
      }
      if r.session == "" {
        if !r.frame.hasInitialize {
          return Status(400);
        }
        if !r.factoryWorks {
          return Status(500);
        }
        registry.Create(r.freshId, r.at);
        return Served(r.freshId);
      }
      var found := registry.Find(r.session, r.at);
      return if found then Served(r.session) else Status(404);
    }

    method Stop()
      modifies this, registry
      ensures registry.entries == map[] && closed == old(closed) + multiset(old(registry.entries).Keys)
    {
      var all := registry.RemoveAll();
      closed := closed + all;
    }
  }

  // ------------------------------------------------------------ runs of requests

  function Exec(o: Options, requests: seq<Request>): State {
    if requests == [] then START
    else Handled(o, Exec(o, requests[..|requests| - 1]), requests[|requests| - 1]).0
  }

  /** The clock does not go back, and no generated id is empty or generated twice. */
  ghost predicate Regular(requests: seq<Request>) {
    && (forall i :: 0 <= i < |requests| ==> requests[i].sweptAt <= requests[i].at)
    && (forall i, j :: 0 <= i < j < |requests| ==> requests[i].at <= requests[j].sweptAt)
    && (forall i :: 0 <= i < |requests| && Creates(requests[i]) ==> requests[i].freshId != "")
    && (forall i, j :: 0 <= i < j < |requests| && Creates(requests[i]) && Creates(requests[j]) ==>
          requests[i].freshId != requests[j].freshId)
  }

  // ------------------------------------------------------------ eager expiry, from the history alone

  ghost predicate CreatedBy(requests: seq<Request>, k: nat, id: string) {
    k < |requests| && Creates(requests[k]) && requests[k].freshId == id
  }

  /** Request `i` creates the session or names it in a look-up. */
  ghost predicate TouchedBy(requests: seq<Request>, i: nat, id: string) {
    CreatedBy(requests, i, id) || (i < |requests| && LooksUp(requests[i]) && requests[i].session == id)
  }

  ghost predicate TerminatedBy(o: Options, requests: seq<Request>, i: nat, id: string) {
    i < |requests| && Terminates(o, requests[i]) && requests[i].session == id
  }

  /** No more time than the timeout has gone by; there is no end to a timeout of zero or less. */
  predicate IsWithin(timeout: int, last: nat, now: nat) {
    timeout <= 0 || now - last <= timeout
  }

  /** Some touch from request `k` on, before request `j`, is no further than the timeout from `now`. */
  ghost predicate RecentlyTouched(o: Options, requests: seq<Request>, k: nat, j: nat, id: string, now: nat) {
    exists i :: k <= i < j && TouchedBy(requests, i, id) && IsWithin(o.idleTimeout, requests[i].at, now)
  }

  /** The session was created by request `k`, was not terminated since, and was never idle longer
      than the timeout: not before any later look-up, and not now. */
  ghost predicate AliveSince(o: Options, requests: seq<Request>, k: nat, id: string, now: nat) {
    && CreatedBy(requests, k, id)
    && (forall j :: k < j < |requests| ==> !TerminatedBy(o, requests, j, id))
    && (forall j :: k < j < |requests| && TouchedBy(requests, j, id) ==>
          RecentlyTouched(o, requests, k, j, id, requests[j].sweptAt))
    && RecentlyTouched(o, requests, k, |requests|, id, now)
  }

  ghost predicate Alive(o: Options, requests: seq<Request>, id: string, now: nat) {
    exists k: nat :: AliveSince(o, requests, k, id, now)
  }

  // ------------------------------------------------------------ lazy sweeping is eager expiry

  /** A table entry is a live session: created once, not terminated, each look-up in time, and its
      recorded activity is the time of its latest touch. */
  ghost predicate Live(o: Options, requests: seq<Request>, k: nat, id: string, last: nat) {
    && CreatedBy(requests, k, id)
    && (forall j :: k < j < |requests| ==> !TerminatedBy(o, requests, j, id))
    && (forall j :: k < j < |requests| && TouchedBy(requests, j, id) ==>
          RecentlyTouched(o, requests, k, j, id, requests[j].sweptAt))
    && (exists i :: k <= i < |requests| && TouchedBy(requests, i, id) && requests[i].at == last)
    && (forall i :: k <= i < |requests| && TouchedBy(requests, i, id) ==> requests[i].at <= last)
  }

  ghost predicate LiveEntry(o: Options, requests: seq<Request>, id: string, last: nat) {
    exists k: nat :: Live(o, requests, k, id, last)
  }

  /** At request `j` the session was terminated, or all its touches so far lay too far back. */
  ghost predicate EndedBy(o: Options, requests: seq<Request>, k: nat, j: nat, id: string) {
    && k < j < |requests|
    && (TerminatedBy(o, requests, j, id) || !RecentlyTouched(o, requests, k, j, id, requests[j].sweptAt))
  }

  ghost predicate Ended(o: Options, requests: seq<Request>, k: nat, id: string) {
    exists j: nat :: EndedBy(o, requests, k, j, id)
  }

  ghost predicate TableExact(o: Options, requests: seq<Request>, s: State) {
    && (forall id :: id in s.entries ==> LiveEntry(o, requests, id, s.entries[id]))
    && (forall id: string, k: nat :: CreatedBy(requests, k, id) && id !in s.entries ==> Ended(o, requests, k, id))
  }

  /** History is stable: what held of earlier requests still holds when one is added. */
  lemma HistoryGrows(o: Options, h: seq<Request>, r: Request, id: string)
    ensures forall i: nat :: i < |h| ==> (CreatedBy(h + [r], i, id) <==> CreatedBy(h, i, id))
    ensures forall i: nat :: i < |h| ==> (TouchedBy(h + [r], i, id) <==> TouchedBy(h, i, id))
    ensures forall i: nat :: i < |h| ==> (TerminatedBy(o, h + [r], i, id) <==> TerminatedBy(o, h, i, id))
    ensures forall k: nat, j: nat, now: nat :: j <= |h| ==> (RecentlyTouched(o, h + [r], k, j, id, now) <==> RecentlyTouched(o, h, k, j, id, now))
  {
    var g := h + [r];
    forall k: nat, j: nat, now: nat | j <= |h|
      ensures RecentlyTouched(o, g, k, j, id, now) <==> RecentlyTouched(o, h, k, j, id, now)
    {
      if RecentlyTouched(o, h, k, j, id, now) {
        var i :| k <= i < j && TouchedBy(h, i, id) && IsWithin(o.idleTimeout, h[i].at, now);
        assert TouchedBy(g, i, id) && g[i] == h[i];
      }
      if RecentlyTouched(o, g, k, j, id, now) {
        var i :| k <= i < j && TouchedBy(g, i, id) && IsWithin(o.idleTimeout, g[i].at, now);
        assert TouchedBy(h, i, id) && g[i] == h[i];
      }
    }
  }

  lemma EndedStays(o: Options, h: seq<Request>, r: Request, k: nat, id: string)
    requires Ended(o, h, k, id)
    ensures Ended(o, h + [r], k, id)
  {
    HistoryGrows(o, h, r, id);
    var j: nat :| EndedBy(o, h, k, j, id);
    assert (h + [r])[j] == h[j];
    assert EndedBy(o, h + [r], k, j, id);
  }

  lemma IdleLater(timeout: int, last: nat, now: nat, later: nat)
    requires now <= later && IsIdle(timeout, last, now)
    ensures IsIdle(timeout, last, later)
  {
  }

  lemma CreatedOnce(h: seq<Request>, i: nat, j: nat, id: string)
    requires Regular(h) && CreatedBy(h, i, id) && CreatedBy(h, j, id)
    ensures i == j
  {
  }

  /** A session created by the last request. */
  lemma CreationLives(o: Options, h: seq<Request>, r: Request)
    requires Creates(r)
    ensures LiveEntry(o, h + [r], r.freshId, r.at)
  {
    var g := h + [r];
    assert CreatedBy(g, |h|, r.freshId) && TouchedBy(g, |h|, r.freshId);
    assert Live(o, g, |h|, r.freshId, r.at);
  }

  lemma LastIsLatest(h: seq<Request>, r: Request, j: nat)
    requires Regular(h + [r]) && j <= |h|
    ensures (h + [r])[j].at <= r.at
  {
    assert (h + [r])[|h|] == r;
    assert j < |h| ==> (h + [r])[j].at <= (h + [r])[|h|].sweptAt;
  }

  lemma {:induction false} LookUpTouches(o: Options, h: seq<Request>, r: Request, k: nat, i: nat)
    requires LooksUp(r) && k <= i < |h| && TouchedBy(h, i, r.session) && !IsIdle(o.idleTimeout, h[i].at, r.sweptAt)
    ensures var g := h + [r];
            && TouchedBy(g, |h|, r.session) && !TerminatedBy(o, g, |h|, r.session)
            && RecentlyTouched(o, g, k, |h|, r.session, r.sweptAt)
  {
    var g := h + [r];
    assert g[i] == h[i] && g[|h|] == r;
    assert TouchedBy(g, i, r.session);
  }

  /** A session the last request looked up in time. */
  lemma {:induction false} LookUpLives(o: Options, h: seq<Request>, r: Request, last: nat)
    requires Regular(h + [r]) && LooksUp(r) && LiveEntry(o, h, r.session, last) && !IsIdle(o.idleTimeout, last, r.sweptAt)
    ensures LiveEntry(o, h + [r], r.session, r.at)
  {
    hide TouchedBy;
    hide CreatedBy;
    hide TerminatedBy;
    hide RecentlyTouched;
    hide Regular;
    hide LooksUp;
    hide IsIdle;
    var g, id := h + [r], r.session;
    HistoryGrows(o, h, r, id);
    var k: nat :| Live(o, h, k, id, last);
    assert k < |h|;
    var i: nat :| k <= i < |h| && TouchedBy(h, i, id) && h[i].at == last;
    LookUpTouches(o, h, r, k, i);
    assert g[|h|] == r;
    forall j | k < j < |g| && TouchedBy(g, j, id)
      ensures RecentlyTouched(o, g, k, j, id, g[j].sweptAt)
    {
      assert j < |h| ==> g[j] == h[j];
    }
    forall j | k <= j < |g| && TouchedBy(g, j, id)
      ensures g[j].at <= r.at
    {
      LastIsLatest(h, r, j);
    }
    assert Live(o, g, k, id, r.at);
  }

  /** A session the last request does not concern. */
  lemma OthersLive(o: Options, h: seq<Request>, r: Request, id: string, last: nat)
    requires LiveEntry(o, h, id, last)
    requires !TouchedBy(h + [r], |h|, id) && !TerminatedBy(o, h + [r], |h|, id)
    ensures LiveEntry(o, h + [r], id, last)
  {
    hide TouchedBy;
    hide CreatedBy;
    hide TerminatedBy;
    hide RecentlyTouched;
    var g := h + [r];
    HistoryGrows(o, h, r, id);
    var k: nat :| Live(o, h, k, id, last);
    var i :| k <= i < |h| && TouchedBy(h, i, id) && h[i].at == last;
    assert TouchedBy(g, i, id) && g[i] == h[i];
    assert CreatedBy(g, k, id);
    forall j | k < j < |g| && TouchedBy(g, j, id)
      ensures RecentlyTouched(o, g, k, j, id, g[j].sweptAt)
    {
      assert j < |h| && g[j] == h[j];
    }
    assert Live(o, g, k, id, last);
  }

  /** A session the last request's sweep or the request itself removed. */
  lemma RemovedEnds(o: Options, h: seq<Request>, r: Request, k: nat, id: string, last: nat)
    requires Regular(h) && CreatedBy(h, k, id) && LiveEntry(o, h, id, last)
    requires IsIdle(o.idleTimeout, last, r.sweptAt) || TerminatedBy(o, h + [r], |h|, id)
    ensures Ended(o, h + [r], k, id)
  {
    var g := h + [r];
    HistoryGrows(o, h, r, id);
    var k': nat :| Live(o, h, k', id, last);
    CreatedOnce(h, k, k', id);
    assert EndedBy(o, g, k, |h|, id);
  }

  lemma RegularPrefix(h: seq<Request>, r: Request)
    requires Regular(h + [r])
    ensures Regular(h)
  {
    assert forall i :: 0 <= i < |h| ==> (h + [r])[i] == h[i];
  }

  lemma EntryStep(o: Options, h: seq<Request>, r: Request, s: State, id: string)
    requires Regular(h + [r]) && TableExact(o, h, s)
    requires id in Handled(o, s, r).0.entries
    ensures LiveEntry(o, h + [r], id, Handled(o, s, r).0.entries[id])
  {
    hide LiveEntry;
    if Creates(r) && r.freshId == id {
      CreationLives(o, h, r);
    } else {
      assert LiveEntry(o, h, id, s.entries[id]);
      if LooksUp(r) && r.session == id {
        LookUpLives(o, h, r, s.entries[id]);
      } else {
        OthersLive(o, h, r, id, s.entries[id]);
      }
    }
  }

  lemma AbsenceStep(o: Options, h: seq<Request>, r: Request, s: State, k: nat, id: string)
    requires Regular(h + [r]) && TableExact(o, h, s)
    requires CreatedBy(h + [r], k, id) && id !in Handled(o, s, r).0.entries
    ensures Ended(o, h + [r], k, id)
  {
    hide LiveEntry;
    hide Ended;
    RegularPrefix(h, r);
    HistoryGrows(o, h, r, id);
    if k < |h| {
      if id in s.entries {
        RemovedEnds(o, h, r, k, id, s.entries[id]);
      } else {
        EndedStays(o, h, r, k, id);
      }
    }
  }

  lemma {:induction false} TableAlwaysExact(o: Options, h: seq<Request>)
    requires Regular(h)
    ensures TableExact(o, h, Exec(o, h))
    decreases |h|
  {
    if h != [] {
      var g, r := h[..|h| - 1], h[|h| - 1];
      assert h == g + [r];
      RegularPrefix(g, r);
      TableAlwaysExact(o, g);
      var s := Exec(o, g);
      forall id | id in Exec(o, h).entries
        ensures LiveEntry(o, h, id, Exec(o, h).entries[id])
      {
        EntryStep(o, g, r, s, id);
      }
      forall id: string, k: nat | CreatedBy(h, k, id) && id !in Exec(o, h).entries
        ensures Ended(o, h, k, id)
      {
        AbsenceStep(o, g, r, s, k, id);
      }
    }
  }

  /** After a session has ended, no look-up of it can have been in time. */
  lemma {:induction false} NoTouchAfterEnd(o: Options, h: seq<Request>, k: nat, j: nat, i: nat, id: string, now: nat)
    requires Regular(h) && AliveSince(o, h, k, id, now) && EndedBy(o, h, k, j, id) && j <= i < |h|
    ensures !TouchedBy(h, i, id)
    decreases i
  {
    assert h[j].sweptAt <= h[i].sweptAt;
    forall i' | j <= i' < i
      ensures !TouchedBy(h, i', id)
    {
      NoTouchAfterEnd(o, h, k, j, i', id, now);
    }
    forall i' | k <= i' < j && TouchedBy(h, i', id)
      ensures IsIdle(o.idleTimeout, h[i'].at, h[i].sweptAt)
    {
      IdleLater(o.idleTimeout, h[i'].at, h[j].sweptAt, h[i].sweptAt);
    }
    assert !RecentlyTouched(o, h, k, i, id, h[i].sweptAt);
  }

  lemma {:induction false} EndedIsNotAlive(o: Options, h: seq<Request>, k: nat, id: string, now: nat)
    requires Regular(h) && Ended(o, h, k, id) && forall i :: 0 <= i < |h| ==> h[i].at <= now
    ensures !AliveSince(o, h, k, id, now)
  {
    var j: nat :| EndedBy(o, h, k, j, id);
    if !TerminatedBy(o, h, j, id) {
      forall i | k <= i < j && TouchedBy(h, i, id)
        ensures IsIdle(o.idleTimeout, h[i].at, now)
      {
        IdleLater(o.idleTimeout, h[i].at, h[j].sweptAt, now);
      }
      forall i | j <= i < |h|
        ensures AliveSince(o, h, k, id, now) ==> !TouchedBy(h, i, id)
      {
        if AliveSince(o, h, k, id, now) {
          NoTouchAfterEnd(o, h, k, j, i, id, now);
        }
      }
    }
  }

  /** The lazily swept table finds an id exactly when eager expiry would: the session was created,
      not terminated, and never idle longer than the timeout. */
  lemma {:induction false} LazySweepIsEagerExpiry(o: Options, h: seq<Request>, id: string, now: nat)
    requires Regular(h) && forall i :: 0 <= i < |h| ==> h[i].at <= now
    ensures id in Swept(Exec(o, h), o.idleTimeout, now).entries <==> Alive(o, h, id, now)
  {
    TableAlwaysExact(o, h);
    var s := Exec(o, h);
    if id in s.entries {
      var last := s.entries[id];
      var k: nat :| Live(o, h, k, id, last);
      var i :| k <= i < |h| && TouchedBy(h, i, id) && h[i].at == last;
      if !IsIdle(o.idleTimeout, last, now) {
        assert RecentlyTouched(o, h, k, |h|, id, now);
        assert AliveSince(o, h, k, id, now);
      } else {
        forall k': nat
          ensures !AliveSince(o, h, k', id, now)
        {
          if CreatedBy(h, k', id) {
            CreatedOnce(h, k, k', id);
          }
        }
      }
    } else if Alive(o, h, id, now) {
      var k: nat :| AliveSince(o, h, k, id, now);
      EndedIsNotAlive(o, h, k, id, now);
    }
  }

  /** A request that names a session is served exactly when that session is alive. */
  lemma ServedIffAlive(o: Options, h: seq<Request>, r: Request)
    requires Regular(h + [r]) && LooksUp(r)
    ensures Handled(o, Exec(o, h), r).1 ==
            if Alive(o, h, r.session, r.sweptAt) then Served(r.session) else Status(404)
  {
    RegularPrefix(h, r);
    forall i | 0 <= i < |h|
      ensures h[i].at <= r.sweptAt
    {
      assert (h + [r])[i] == h[i] && (h + [r])[|h|] == r;
    }
    LazySweepIsEagerExpiry(o, h, r.session, r.sweptAt);
  }

  /** A termination succeeds exactly when the session is alive, and is the end of it. */
  lemma TerminatedIffAlive(o: Options, h: seq<Request>, r: Request)
    requires Regular(h + [r]) && Terminates(o, r)
    ensures Handled(o, Exec(o, h), r).1 == if Alive(o, h, r.session, r.sweptAt) then Status(200) else Status(404)
    ensures r.session !in Handled(o, Exec(o, h), r).0.entries
  {
    RegularPrefix(h, r);
    forall i | 0 <= i < |h|
      ensures h[i].at <= r.sweptAt
    {
      assert (h + [r])[i] == h[i] && (h + [r])[|h|] == r;
    }
    LazySweepIsEagerExpiry(o, h, r.session, r.sweptAt);
  }

  /** What every other request is answered with, by status: no session is touched by it. */
  lemma OthersRefused(o: Options, s: State, r: Request)
    requires !Creates(r) && !LooksUp(r) && !Terminates(o, r)
    ensures var (t, answer) := Handled(o, s, r);
            && t == Swept(s, o.idleTimeout, r.sweptAt) && answer.Status? && answer.code in {400, 405, 406, 500}
            && (answer.code == 405 <==> r.verb.Other? || (r.verb.Delete? && r.session != ""))
            && (answer.code == 406 <==> r.verb.Get? && !r.acceptsStream)
            && (answer.code == 500 <==> r.verb.Post? && r.session == "" && r.frame == Frame(true))
            && (answer.code == 400 <==>
                  || (r.session == "" && (r.verb.Delete? || (r.verb.Get? && r.acceptsStream)))
                  || (r.verb.Post? && (r.frame.Malformed? || r.frame == Frame(false))))
  {
  }

  /** Which requests create, look up or terminate a session. */
  lemma RequestKinds(o: Options, r: Request)
    ensures Creates(r) <==> r.verb.Post? && r.session == "" && r.frame == Frame(true) && r.factoryWorks
    ensures LooksUp(r) <==> r.session != "" && ((r.verb.Get? && r.acceptsStream) || (r.verb.Post? && !r.frame.Malformed?))
    ensures Terminates(o, r) <==> r.session != "" && r.verb.Delete? && o.allowTermination
    ensures Creates(r) ==> Handled(o, START, r).1 == Served(r.freshId)
  {
  }

  // ------------------------------------------------------------ each removed session is closed once

  ghost predicate WasCreated(h: seq<Request>, id: string) {
    exists k: nat :: CreatedBy(h, k, id)
  }

  lemma CreatedGrows(h: seq<Request>, r: Request, id: string)
    ensures WasCreated(h + [r], id) <==> WasCreated(h, id) || (Creates(r) && r.freshId == id)
  {
    var g := h + [r];
    if WasCreated(h, id) {
      var k: nat :| CreatedBy(h, k, id);
      assert CreatedBy(g, k, id);
    }
    if Creates(r) && r.freshId == id {
      assert CreatedBy(g, |h|, id);
    }
    if WasCreated(g, id) {
      var k: nat :| CreatedBy(g, k, id);
      if k < |h| {
        assert CreatedBy(h, k, id);
      }
    }
  }

  lemma FreshIdIsNew(h: seq<Request>, r: Request)
    requires Regular(h + [r]) && Creates(r)
    ensures !WasCreated(h, r.freshId)
  {
    var g := h + [r];
    forall k: nat | k < |h|
      ensures !CreatedBy(h, k, r.freshId)
    {
      assert g[k] == h[k] && g[|h|] == r;
    }
  }

  ghost predicate ClosedExactFor(h: seq<Request>, s: State, id: string) {
    s.closed[id] == (if WasCreated(h, id) && id !in s.entries then 1 else 0) && (id in s.entries ==> WasCreated(h, id))
  }

  lemma ClosedStep(o: Options, h: seq<Request>, r: Request, s: State, id: string)
    requires Regular(h + [r]) && ClosedExactFor(h, s, id)
    ensures ClosedExactFor(h + [r], Handled(o, s, r).0, id)
  {
    hide WasCreated;
    hide Regular;
    CreatedGrows(h, r, id);
    if Creates(r) {
      FreshIdIsNew(h, r);
    }
    var t := Swept(s, o.idleTimeout, r.sweptAt);
    assert t.closed[id] == s.closed[id] + if id in Idle(s.entries, o.idleTimeout, r.sweptAt) then 1 else 0;
  }

  lemma {:induction false} ClosedAlwaysExact(o: Options, h: seq<Request>, id: string)
    requires Regular(h)
    ensures ClosedExactFor(h, Exec(o, h), id)
    decreases |h|
  {
    if h != [] {
      var g, r := h[..|h| - 1], h[|h| - 1];
      assert h == g + [r];
      RegularPrefix(g, r);
      ClosedAlwaysExact(o, g, id);
      ClosedStep(o, g, r, Exec(o, g), id);
    }
  }

  /** A session's closed callback has run exactly once if it was created and is gone, and not at
      all otherwise; stopping the server closes each session that is left, once. */
  lemma EachRemovalClosesOnce(o: Options, h: seq<Request>, id: string)
    requires Regular(h)
    ensures var s := Exec(o, h);
            && s.closed[id] == (if WasCreated(h, id) && id !in s.entries then 1 else 0)
            && (s.closed + multiset(s.entries.Keys))[id] == (if WasCreated(h, id) then 1 else 0)
  {
    ClosedAlwaysExact(o, h, id);
  }
}
