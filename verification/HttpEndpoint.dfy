/** The HTTP endpoint's descriptors: who opens, uses and closes each of them, in every interleaving
    of the accept loop, the connection handlers and `stop`. */
module HttpEndpoints {
  import opened Wrappers

  type Fd = nat

  /** The descriptors as the system sees them. `open` maps each open descriptor to the number of the
      socket behind it (a descriptor is reused, a number is not); `closed` collects the numbers of the
      closed sockets and `shut` those of the sockets that were shut down. `stale` says that some call hit a descriptor that was not open or was another
      socket's by then. */
  datatype Os = Os(open: map<Fd, nat>, closed: multiset<nat>, shut: set<nat>, stale: bool)

  function Close(os: Os, fd: Fd): Os {
    if fd in os.open then Os(os.open - {fd}, os.closed + multiset{os.open[fd]}, os.shut, os.stale)
    else os.(stale := true)
  }

  /** A call on `fd` that is meant for socket `number`. */
  function Use(os: Os, fd: Fd, number: nat): Os {
    os.(stale := os.stale || fd !in os.open || os.open[fd] != number)
  }

  /** A shutdown of `fd` that is meant for socket `number`: whoever waits for the socket goes on. */
  function Shut(os: Os, fd: Fd, number: nat): Os {
    Use(os, fd, number).(shut := if fd in os.open then os.shut + {os.open[fd]} else os.shut)
  }

  function ShutAll(os: Os, fds: seq<Fd>): Os {
    os.(stale := os.stale || exists i :: 0 <= i < |fds| && fds[i] !in os.open,
        shut := os.shut + set i | 0 <= i < |fds| && fds[i] in os.open :: os.open[fds[i]])
  }

  /** A misuse stays on record, and every one is: a call on a descriptor that is not open or has become
      another socket's, a close or a shutdown of one that is not open. */
  lemma MisuseIsNoticed(os: Os, fd: Fd, number: nat, fds: seq<Fd>)
    ensures Close(os, fd).stale <==> os.stale || fd !in os.open
    ensures Use(os, fd, number).stale <==> os.stale || !(fd in os.open && os.open[fd] == number)
    ensures ShutAll(os, fds).stale <==> os.stale || exists x :: x in fds && x !in os.open
    ensures Use(os, fd, number).open == Shut(os, fd, number).open == ShutAll(os, fds).open == os.open
    ensures Shut(os, fd, number).stale <==> Use(os, fd, number).stale
    ensures fd in os.open ==> fd !in Close(os, fd).open && Close(os, fd).closed == os.closed + multiset{os.open[fd]}
    ensures forall x :: x in os.open && x != fd ==> x in Close(os, fd).open && Close(os, fd).open[x] == os.open[x]
  {
    assert forall i :: 0 <= i < |fds| ==> fds[i] in fds;
  }

  function CloseAll(os: Os, fds: seq<Fd>): Os {
    if fds == [] then os else Close(CloseAll(os, fds[..|fds| - 1]), fds[|fds| - 1])
  }

  lemma {:induction false} AllClosed(os: Os, fds: seq<Fd>, fd: Fd)
    ensures fd in fds || fd !in os.open ==> fd !in CloseAll(os, fds).open
    decreases |fds|
  {
    if fds != [] {
      AllClosed(os, fds[..|fds| - 1], fd);
      assert fd in fds ==> fd in fds[..|fds| - 1] || fd == fds[|fds| - 1];
    }
  }

  /** Without the first `fd`. */
  function Erase(fds: seq<Fd>, fd: Fd): seq<Fd> {
    if fds == [] then [] else if fds[0] == fd then fds[1..] else [fds[0]] + Erase(fds[1..], fd)
  }

  predicate Distinct(fds: seq<Fd>) {
    forall i, j :: 0 <= i < j < |fds| ==> fds[i] != fds[j]
  }

  lemma {:induction false} ErasedMembers(fds: seq<Fd>, fd: Fd)
    requires Distinct(fds)
    ensures Distinct(Erase(fds, fd))
    ensures forall x :: x in Erase(fds, fd) <==> x in fds && x != fd
  {
    if fds != [] {
      assert fds == [fds[0]] + fds[1..];
      assert fds[0] !in fds[1..];
      ErasedMembers(fds[1..], fd);
    }
  }

  // ------------------------------------------------------------ the locked regions

  /** What the connection mutex protects, with the running flag and the descriptors. */
  datatype Core = Core(running: bool, conns: seq<Fd>, os: Os)

  function Registered(c: Core, fd: Fd): Core {
    if c.running then c.(conns := c.conns + [fd]) else c.(os := Close(c.os, fd))
  }

  function Left(c: Core, fd: Fd): Core {
    if fd in c.conns then c.(conns := Erase(c.conns, fd), os := Close(c.os, fd)) else c
  }

  function Swept(c: Core): Core {
    c.(conns := [], os := CloseAll(c.os, c.conns))
  }

  lemma FirstOfThree(before: seq<Fd>, fd: Fd, after: seq<Fd>)
    ensures var all := before + [fd] + after;
            all != [] && if before == [] then all[0] == fd && all[1..] == after
                         else all[0] == before[0] && all[1..] == before[1..] + [fd] + after
    ensures before != [] ==> before + after == [before[0]] + (before[1..] + after)
  {
  }

  lemma {:induction false} EraseUnfold(fds: seq<Fd>, fd: Fd)
    requires fds != []
    ensures Erase(fds, fd) == if fds[0] == fd then fds[1..] else [fds[0]] + Erase(fds[1..], fd)
  {
  }

  lemma {:induction false} EraseAt(before: seq<Fd>, fd: Fd, after: seq<Fd>)
    requires fd !in before
    ensures Erase(before + [fd] + after, fd) == before + after
  {
    hide Erase;
    FirstOfThree(before, fd, after);
    EraseUnfold(before + [fd] + after, fd);
    if before == [] {
      assert before + after == after;
    } else {
      assert forall x :: x in before[1..] ==> x in before;
      EraseAt(before[1..], fd, after);
    }
  }

  class HttpEndpoint {
    var running: bool
    var conns: seq<Fd>
    var os: Os

    function View(): Core
      reads this
    {
      Core(running, conns, os)
    }

    constructor (listener: Fd)
      ensures View() == Core(true, [], Os(map[listener := 0], multiset{}, {}, false))
    {
      running, conns := true, [];
      os := Os(map[listener := 0], multiset{}, {}, false);
    }

    /** After an accept: the descriptor is listed, or closed when the endpoint is stopping. */
    method Register(fd: Fd) returns (listed: bool)
      modifies this
      ensures listed == old(running)
      ensures View() == Registered(old(View()), fd)
    {
      listed := running;
      if running {
        conns := conns + [fd];
      } else {
        os := Close(os, fd);
      }
    }

    /** The end of a connection handler. */
    method Leave(fd: Fd)
      modifies this
      ensures View() == Left(old(View()), fd)
    {
      var i := 0;
      while i < |conns| && conns[i] != fd
        invariant 0 <= i <= |conns| && fd !in conns[..i]
        invariant View() == old(View())
      {
        i := i + 1;
      }
      if i < |conns| {
        EraseAt(conns[..i], fd, conns[i + 1..]);
        assert conns[..i] + [fd] + conns[i + 1..] == conns;
        conns := conns[..i] + conns[i + 1..];
        os := Close(os, fd);
      } else {
        assert conns[..i] == conns;
      }
    }

    /** The last part of `stop`: closes whatever is still listed. */
    method Sweep()
      modifies this
      ensures View() == Swept(old(View()))
      ensures conns == [] && running == old(running) && forall fd :: fd in old(conns) ==> fd !in os.open
    {
      for i := 0 to |conns|
        invariant running == old(running) && conns == old(conns)
        invariant os == CloseAll(old(os), conns[..i])
      {
        assert conns[..i + 1][..i] == conns[..i];
        os := Close(os, conns[i]);
      }
      assert conns[..|conns|] == conns;
      ghost var fds, closed := conns, os;
      forall fd | fd in fds
        ensures fd !in closed.open
      {
        AllClosed(old(os), fds, fd);
      }
      conns := [];
    }
  }

  // ------------------------------------------------------------ all interleavings

  datatype Acceptor = Polling | Holding(fd: Fd, number: nat) | Exited

  datatype Phase = Serving | Leaving | Done

  /** A connection thread: the descriptor it was given and the socket that was behind it. */
  datatype Handler = Handler(fd: Fd, number: nat, phase: Phase)

  /** Where `stop` is; threads are numbered by their place in `handlers`. */
  datatype Stop =
    | NotCalled | Waking | Shutting | JoiningAcceptor | Swapping
    | Joining(threads: seq<nat>) | Sweeping | ClosingListener | Returned

  datatype State = State(core: Core, listener: Fd, sockets: nat, acceptor: Acceptor,
                         handlers: seq<Handler>, threads: seq<nat>, stop: Stop)

  /** A started endpoint; socket 0 is the listening one. */
  function Started(listener: Fd): State {
    State(Core(true, [], Os(map[listener := 0], multiset{}, {}, false)), listener, 1, Polling, [], [], NotCalled)
  }

  datatype Label =
    | AcceptorExits
    | Accept(fd: Fd)
    | Register
    | ShutOwn(thread: nat)
    | Leave(thread: nat)
    | StopCalled
    | StopWakes
    | StopShuts
    | StopJoinsAcceptor
    | StopSwaps
    | StopJoinsHandlers
    | StopSweeps
    | StopClosesListener

  predicate InPhase(s: State, thread: nat, phase: Phase) {
    thread < |s.handlers| && s.handlers[thread].phase == phase
  }

  predicate AllDone(s: State, threads: seq<nat>) {
    forall i :: 0 <= i < |threads| ==> InPhase(s, threads[i], Done)
  }

  predicate Enabled(s: State, l: Label) {
    match l
    case AcceptorExits => s.acceptor.Polling?
    // The system hands out a descriptor that is not open.
    case Accept(fd) => s.acceptor.Polling? && fd !in s.core.os.open
    case Register => s.acceptor.Holding?
    case ShutOwn(thread) => InPhase(s, thread, Serving)
    case Leave(thread) => InPhase(s, thread, Leaving)
    case StopCalled => s.core.running
    case StopWakes => s.stop.Waking?
    case StopShuts => s.stop.Shutting?
    case StopJoinsAcceptor => s.stop.JoiningAcceptor? && s.acceptor.Exited?
    case StopSwaps => s.stop.Swapping?
    case StopJoinsHandlers => s.stop.Joining? && AllDone(s, s.stop.threads)
    case StopSweeps => s.stop.Sweeping?
    case StopClosesListener => s.stop.ClosingListener?
  }

  function WithOs(s: State, os: Os): State {
    s.(core := s.core.(os := os))
  }

  function Moved(s: State, thread: nat, phase: Phase): State
    requires thread < |s.handlers|
  {
    s.(handlers := s.handlers[thread := s.handlers[thread].(phase := phase)])
  }

  function Apply(s: State, l: Label): State
    requires Enabled(s, l)
  {
    var os := s.core.os;
    match l
    case AcceptorExits => s.(acceptor := Exited)
    case Accept(fd) =>
      var t := WithOs(s, Use(os, s.listener, 0));
      WithOs(t, t.core.os.(open := os.open[fd := s.sockets])).(acceptor := Holding(fd, s.sockets), sockets := s.sockets + 1)
    case Register =>
      var (fd, number) := (s.acceptor.fd, s.acceptor.number);
      var t := s.(core := Registered(s.core, fd));
      if !s.core.running then t.(acceptor := Exited)
      else t.(acceptor := Polling, handlers := s.handlers + [Handler(fd, number, Serving)], threads := s.threads + [|s.handlers|])
    case ShutOwn(thread) =>
      var h := s.handlers[thread];
      Moved(WithOs(s, Shut(os, h.fd, h.number)), thread, Leaving)
    case Leave(thread) => Moved(s.(core := Left(s.core, s.handlers[thread].fd)), thread, Done)
    case StopCalled => s.(core := s.core.(running := false), stop := Waking)
    case StopWakes => WithOs(s, Shut(os, s.listener, 0)).(stop := Shutting)
    case StopShuts => WithOs(s, ShutAll(os, s.core.conns)).(stop := JoiningAcceptor)
    case StopJoinsAcceptor => s.(stop := Swapping)
    case StopSwaps => s.(stop := Joining(s.threads), threads := [])
    case StopJoinsHandlers => s.(stop := Sweeping)
    case StopSweeps => s.(core := Swept(s.core), stop := ClosingListener)
    case StopClosesListener => WithOs(s, Close(Use(os, s.listener, 0), s.listener)).(stop := Returned)
  }

  function Exec(listener: Fd, labels: seq<Label>): State {
    if labels == [] then Started(listener)
    else
      var s := Exec(listener, labels[..|labels| - 1]);
      var l := labels[|labels| - 1];
      if Enabled(s, l) then Apply(s, l) else s
  }

  // ------------------------------------------------------------ what every step keeps

  /** Every socket so far is open under one descriptor and not closed, or not open and closed once. */
  ghost predicate ClosedOnce(os: Os, sockets: nat) {
    && (forall fd :: fd in os.open ==> os.open[fd] < sockets && os.closed[os.open[fd]] == 0)
    && (forall fd, fd' :: fd in os.open && fd' in os.open && os.open[fd] == os.open[fd'] ==> fd == fd')
    && (forall n: nat :: n < sockets && n !in os.open.Values ==> os.closed[n] == 1)
    && (forall n: nat :: n >= sockets ==> os.closed[n] == 0)
  }

  predicate Owns(s: State, fd: Fd, number: nat) {
    fd in s.core.os.open && s.core.os.open[fd] == number
  }

  predicate Live(s: State, thread: nat) {
    thread < |s.handlers| && s.handlers[thread].phase != Done
  }

  /** A listed descriptor is open for the socket of a handler that is still there. */
  predicate ConnOk(s: State, fd: Fd) {
    && fd in s.core.os.open && s.core.os.open[fd] > 0
    && Live(s, s.core.os.open[fd] - 1) && s.handlers[s.core.os.open[fd] - 1].fd == fd
  }

  predicate HandlerOk(s: State, thread: nat) {
    Live(s, thread) ==> Owns(s, s.handlers[thread].fd, thread + 1) && s.handlers[thread].fd in s.core.conns
  }

  predicate AcceptorOk(s: State) {
    match s.acceptor
    case Polling => s.sockets == |s.handlers| + 1
    case Holding(fd, number) =>
      number == |s.handlers| + 1 && s.sockets == number + 1 && Owns(s, fd, number) && fd !in s.core.conns
    case Exited => true
  }

  predicate OpenIsKnown(s: State, fd: Fd) {
    || (fd == s.listener && Owns(s, fd, 0) && !s.stop.Returned?)
    || (s.acceptor.Holding? && s.acceptor.fd == fd)
    || fd in s.core.conns
  }

  ghost predicate Owned(s: State) {
    && (!s.stop.Returned? ==> Owns(s, s.listener, 0))
    && AcceptorOk(s)
    && Distinct(s.core.conns)
    && (forall t: nat :: t < |s.handlers| ==> s.handlers[t].number == t + 1)
    && (forall t: nat :: HandlerOk(s, t))
    && (forall fd :: fd in s.core.conns ==> ConnOk(s, fd))
    && (forall fd :: fd in s.core.os.open ==> OpenIsKnown(s, fd))
  }

  predicate ThreadKnown(s: State, thread: nat) {
    thread in s.threads || (s.stop.Joining? && thread in s.stop.threads) || !Live(s, thread)
  }

  predicate AcceptorJoined(stop: Stop) {
    stop.Swapping? || stop.Joining? || stop.Sweeping? || stop.ClosingListener? || stop.Returned?
  }

  ghost predicate Ordered(s: State) {
    && (s.core.running <==> s.stop.NotCalled?)
    && (AcceptorJoined(s.stop) ==> s.acceptor.Exited?)
    && (AcceptorJoined(s.stop) && !s.stop.Swapping? ==> s.threads == [])
    && (s.stop.Joining? ==> forall i :: 0 <= i < |s.stop.threads| ==> s.stop.threads[i] < |s.handlers|)
    && (forall i :: 0 <= i < |s.threads| ==> s.threads[i] < |s.handlers|)
    && (forall t: nat :: ThreadKnown(s, t))
  }

  ghost predicate Invariant(s: State) {
    !s.core.os.stale && ClosedOnce(s.core.os, s.sockets) && Owned(s) && Ordered(s)
  }

  lemma SocketClosed(os: Os, sockets: nat, fd: Fd)
    requires ClosedOnce(os, sockets) && fd in os.open
    ensures ClosedOnce(Close(os, fd), sockets)
  {
    var os' := Close(os, fd);
    forall n: nat | n < sockets && n !in os'.open.Values
      ensures os'.closed[n] == 1
    {
      if n in os.open.Values {
        var other :| other in os.open && os.open[other] == n;
        assert other != fd ==> other in os'.open;
      }
    }
  }

  lemma SocketOpened(os: Os, sockets: nat, fd: Fd)
    requires ClosedOnce(os, sockets) && fd !in os.open
    ensures ClosedOnce(os.(open := os.open[fd := sockets]), sockets + 1)
  {
    var open := os.open[fd := sockets];
    forall n: nat | n < sockets + 1 && n !in open.Values
      ensures os.closed[n] == 1
    {
      assert open[fd] == sockets;
      assert forall other :: other in os.open ==> open[other] == os.open[other];
    }
  }

  /** When every thread is done, nothing is listed. */
  lemma NothingListed(s: State)
    requires Owned(s) && Ordered(s)
    requires AcceptorJoined(s.stop) && !s.stop.Swapping? && (s.stop.Joining? ==> AllDone(s, s.stop.threads))
    ensures s.core.conns == []
  {
    assert s.core.conns != [] ==> ConnOk(s, s.core.conns[0]);
    assert forall t: nat :: ThreadKnown(s, t) ==> !Live(s, t);
  }

  lemma OrderedStep(s: State, l: Label)
    requires Ordered(s) && Enabled(s, l)
    ensures Ordered(Apply(s, l))
  {
    hide Close;
    hide CloseAll;
    hide Erase;
    hide Use;
    hide ShutAll;
    var s' := Apply(s, l);
    assert s'.core.running == (s.core.running && !l.StopCalled?);
    forall t: nat
      ensures ThreadKnown(s', t)
    {
      assert ThreadKnown(s, t);
      if l.Register? && s.core.running && t == |s.handlers| {
        assert s'.threads[|s.threads|] == t;
      }
    }
  }

  lemma AcceptKeeps(s: State, fd: Fd)
    requires Owned(s) && Enabled(s, Accept(fd)) && s.stop != Returned
    ensures Owned(Apply(s, Accept(fd)))
  {
    var s' := Apply(s, Accept(fd));
    assert s'.core.os == s.core.os.(open := s.core.os.open[fd := s.sockets]);
    hide Distinct;
    assert ConnOk(s, fd) ==> false;
    forall t: nat
      ensures HandlerOk(s', t)
    {
      assert HandlerOk(s, t);
    }
    forall x | x in s.core.conns
      ensures ConnOk(s', x)
    {
      assert ConnOk(s, x);
    }
    forall x | x in s'.core.os.open
      ensures OpenIsKnown(s', x)
    {
      assert x != fd ==> OpenIsKnown(s, x);
    }
  }

  lemma ListedKeeps(s: State)
    requires Owned(s) && Enabled(s, Register) && s.core.running
    ensures Owned(Apply(s, Register))
  {
    var s', fd := Apply(s, Register), s.acceptor.fd;
    hide Close;
    assert s'.core.os == s.core.os && s'.core.conns == s.core.conns + [fd];
    forall t: nat
      ensures HandlerOk(s', t)
    {
      assert HandlerOk(s, t);
    }
    forall x | x in s'.core.conns
      ensures ConnOk(s', x)
    {
      assert x in s.core.conns ==> ConnOk(s, x);
    }
    forall x | x in s'.core.os.open
      ensures OpenIsKnown(s', x)
    {
      assert OpenIsKnown(s, x);
    }
  }

  lemma RefusedKeeps(s: State)
    requires Owned(s) && Enabled(s, Register) && !s.core.running
    ensures Owned(Apply(s, Register))
  {
    var s', fd := Apply(s, Register), s.acceptor.fd;
    hide Distinct;
    assert s'.core.os.open == s.core.os.open - {fd} && s'.core.conns == s.core.conns;
    forall t: nat
      ensures HandlerOk(s', t)
    {
      assert HandlerOk(s, t);
    }
    forall x | x in s'.core.conns
      ensures ConnOk(s', x)
    {
      assert ConnOk(s, x);
    }
    forall x | x in s'.core.os.open
      ensures OpenIsKnown(s', x)
    {
      assert OpenIsKnown(s, x);
    }
  }

  lemma LeaveTakesItsOwn(s: State, thread: nat)
    requires Owned(s) && Enabled(s, Leave(thread))
    ensures var (s', fd) := (Apply(s, Leave(thread)), s.handlers[thread].fd);
            && Owns(s, fd, thread + 1) && fd in s.core.conns
            && s'.core.os.open == s.core.os.open - {fd} && s'.core.conns == Erase(s.core.conns, fd)
            && s' == s.(core := s'.core, handlers := s.handlers[thread := s.handlers[thread].(phase := Done)])
  {
    hide Distinct;
    assert HandlerOk(s, thread);
  }

  lemma LeaveKeepsHandlers(s: State, thread: nat, t: nat)
    requires Owned(s) && Enabled(s, Leave(thread))
    ensures HandlerOk(Apply(s, Leave(thread)), t)
  {
    LeaveTakesItsOwn(s, thread);
    ErasedMembers(s.core.conns, s.handlers[thread].fd);
    hide Erase;
    hide Distinct;
    hide Apply;
    assert HandlerOk(s, t);
  }

  lemma LeaveKeepsConnections(s: State, thread: nat, fd: Fd)
    requires Owned(s) && Enabled(s, Leave(thread))
    ensures fd in Apply(s, Leave(thread)).core.conns ==> ConnOk(Apply(s, Leave(thread)), fd)
    ensures fd in Apply(s, Leave(thread)).core.os.open ==> OpenIsKnown(Apply(s, Leave(thread)), fd)
  {
    LeaveTakesItsOwn(s, thread);
    ErasedMembers(s.core.conns, s.handlers[thread].fd);
    hide Erase;
    hide Distinct;
    hide Apply;
    assert fd in s.core.conns ==> ConnOk(s, fd);
    assert fd in s.core.os.open ==> OpenIsKnown(s, fd);
  }

  lemma LeaveKeeps(s: State, thread: nat)
    requires Owned(s) && Enabled(s, Leave(thread))
    ensures Owned(Apply(s, Leave(thread)))
    ensures s.handlers[thread].fd in s.core.os.open && s.handlers[thread].fd in s.core.conns
  {
    var s' := Apply(s, Leave(thread));
    LeaveTakesItsOwn(s, thread);
    ErasedMembers(s.core.conns, s.handlers[thread].fd);
    hide Erase;
    hide Distinct;
    hide Apply;
    hide ConnOk;
    hide OpenIsKnown;
    hide HandlerOk;
    forall t: nat
      ensures HandlerOk(s', t)
    {
      LeaveKeepsHandlers(s, thread, t);
    }
    forall x
      ensures x in s'.core.conns ==> ConnOk(s', x)
      ensures x in s'.core.os.open ==> OpenIsKnown(s', x)
    {
      LeaveKeepsConnections(s, thread, x);
    }
  }

  lemma ShutOwnKeeps(s: State, thread: nat)
    requires Owned(s) && Enabled(s, ShutOwn(thread))
    ensures Owned(Apply(s, ShutOwn(thread)))
    ensures var os' := Apply(s, ShutOwn(thread)).core.os;
            os' == s.core.os.(shut := os'.shut) && os'.shut == s.core.os.shut + {thread + 1}
  {
    var s' := Apply(s, ShutOwn(thread));
    assert HandlerOk(s, thread);
    assert s'.core == s.core.(os := s.core.os.(shut := s'.core.os.shut));
    hide Distinct;
    forall t: nat
      ensures HandlerOk(s', t)
    {
      assert HandlerOk(s, t);
    }
    forall x | x in s'.core.conns
      ensures ConnOk(s', x)
    {
      assert ConnOk(s, x);
    }
    forall x | x in s'.core.os.open
      ensures OpenIsKnown(s', x)
    {
      assert OpenIsKnown(s, x);
    }
  }

  predicate StopsOrExits(l: Label) {
    !l.Accept? && !l.Register? && !l.ShutOwn? && !l.Leave?
  }

  /** Neither `stop` nor the end of the accept loop touches a connection. */
  lemma StopTouchesNoConnection(s: State, l: Label)
    requires Owned(s) && Ordered(s) && Enabled(s, l) && StopsOrExits(l)
    ensures var (core, core') := (s.core, Apply(s, l).core);
            && core'.conns == core.conns
            && core'.os == (if l.StopClosesListener? then Close(core.os, s.listener) else core.os).(shut := core'.os.shut)
  {
    if l.StopSweeps? {
      NothingListed(s);
    }
    if l.StopShuts? {
      assert forall fd :: fd in s.core.conns ==> ConnOk(s, fd);
      assert forall i :: 0 <= i < |s.core.conns| ==> s.core.conns[i] in s.core.conns;
      assert !ShutAll(s.core.os, s.core.conns).stale || s.core.os.stale;
    }
    if l.StopWakes? || l.StopClosesListener? {
      assert Use(s.core.os, s.listener, 0) == s.core.os;
    }
    hide Owned;
    hide Ordered;
  }

  lemma StopKeeps(s: State, l: Label)
    requires Owned(s) && Ordered(s) && Enabled(s, l) && StopsOrExits(l)
    ensures Owned(Apply(s, l))
  {
    var s' := Apply(s, l);
    StopTouchesNoConnection(s, l);
    assert s'.handlers == s.handlers && s'.listener == s.listener && s'.sockets == s.sockets;
    assert s'.acceptor == s.acceptor || s'.acceptor == Exited;
    assert s.stop.Returned? <==> s'.stop.Returned? && !l.StopClosesListener?;
    if l.StopClosesListener? {
      assert s'.core.os.open == s.core.os.open - {s.listener};
    }
    hide Distinct;
    hide Apply;
    hide Enabled;
    forall t: nat
      ensures HandlerOk(s', t)
    {
      assert HandlerOk(s, t);
    }
    forall x | x in s'.core.conns
      ensures ConnOk(s', x)
    {
      assert ConnOk(s, x);
    }
    forall x | x in s'.core.os.open
      ensures OpenIsKnown(s', x)
    {
      assert OpenIsKnown(s, x);
    }
  }

  /** A closed descriptor is always an open one, and the one meant. */
  lemma SocketsStep(s: State, l: Label)
    requires Invariant(s) && Enabled(s, l)
    ensures !Apply(s, l).core.os.stale && ClosedOnce(Apply(s, l).core.os, Apply(s, l).sockets)
  {
    var os := s.core.os;
    match l
    case Accept(fd) =>
      SocketOpened(os, s.sockets, fd);
    case Register =>
      if !s.core.running {
        SocketClosed(os, s.sockets, s.acceptor.fd);
      }
    case ShutOwn(thread) =>
      ShutOwnKeeps(s, thread);
    case Leave(thread) =>
      LeaveKeeps(s, thread);
      SocketClosed(os, s.sockets, s.handlers[thread].fd);
    case _ =>
      StopTouchesNoConnection(s, l);
      if l.StopClosesListener? {
        SocketClosed(os, s.sockets, s.listener);
      }
  }

  lemma OwnedStep(s: State, l: Label)
    requires Owned(s) && Ordered(s) && Enabled(s, l)
    ensures Owned(Apply(s, l))
  {
    hide Owned;
    hide Apply;
    match l
    case Accept(fd) => AcceptKeeps(s, fd);
    case Register => if s.core.running { ListedKeeps(s); } else { RefusedKeeps(s); }
    case ShutOwn(thread) => ShutOwnKeeps(s, thread);
    case Leave(thread) => LeaveKeeps(s, thread);
    case _ => StopKeeps(s, l);
  }

  lemma InvariantStep(s: State, l: Label)
    requires Invariant(s) && Enabled(s, l)
    ensures Invariant(Apply(s, l))
  {
    SocketsStep(s, l);
    OrderedStep(s, l);
    OwnedStep(s, l);
    hide Apply;
    hide Owned;
    hide Ordered;
    hide ClosedOnce;
  }

  lemma {:induction false} RunInvariant(listener: Fd, labels: seq<Label>)
    ensures Invariant(Exec(listener, labels))
    decreases |labels|
  {
    if labels != [] {
      RunInvariant(listener, labels[..|labels| - 1]);
      var s, l := Exec(listener, labels[..|labels| - 1]), labels[|labels| - 1];
      if Enabled(s, l) {
        InvariantStep(s, l);
      }
    }
  }

  // ------------------------------------------------------------ main results

  /** No socket is closed twice, no call hits a descriptor that is closed or was reused, and a
      handler's descriptor stays its own connection's for as long as the handler lives. */
  lemma EachClosedAtMostOnce(listener: Fd, labels: seq<Label>, n: nat, thread: nat)
    ensures var s := Exec(listener, labels);
            && !s.core.os.stale
            && s.core.os.closed[n] == (if n < s.sockets && n !in s.core.os.open.Values then 1 else 0)
            && (Live(s, thread) ==> Owns(s, s.handlers[thread].fd, s.handlers[thread].number))
  {
    RunInvariant(listener, labels);
    var s := Exec(listener, labels);
    assert HandlerOk(s, thread);
    if n < s.sockets && n in s.core.os.open.Values {
      var fd :| fd in s.core.os.open && s.core.os.open[fd] == n;
    }
  }

  /** When `stop` returns every descriptor accepted, and the listening one, was closed exactly once. */
  lemma StoppedClosedEverything(listener: Fd, labels: seq<Label>, n: nat)
    requires Exec(listener, labels).stop.Returned?
    ensures var s := Exec(listener, labels);
            s.core.os.open == map[] && (n < s.sockets ==> s.core.os.closed[n] == 1)
  {
    RunInvariant(listener, labels);
    var s := Exec(listener, labels);
    NothingListed(s);
    assert forall fd :: fd in s.core.os.open ==> OpenIsKnown(s, fd);
    assert s.core.os.open == map[];
  }

  /** The handlers close everything themselves: the sweep in `stop` finds an empty list. */
  lemma SweepFindsNothing(listener: Fd, labels: seq<Label>)
    requires Enabled(Exec(listener, labels), StopSweeps)
    ensures Exec(listener, labels).core.conns == []
  {
    RunInvariant(listener, labels);
    NothingListed(Exec(listener, labels));
  }

  // ------------------------------------------------------------ stop wakes whoever it waits for

  predicate ConnectionsShut(stop: Stop) {
    stop.JoiningAcceptor? || AcceptorJoined(stop)
  }

  /** Once `stop` waits, the listening socket and the connection of every handler that is still there
      have been shut down. */
  ghost predicate Woken(s: State) {
    && (s.stop.Shutting? || ConnectionsShut(s.stop) ==> 0 in s.core.os.shut)
    && (ConnectionsShut(s.stop) ==> forall t: nat :: Live(s, t) ==> t + 1 in s.core.os.shut)
  }

  lemma {:induction false} ShutStays(s: State, l: Label)
    requires Enabled(s, l)
    ensures s.core.os.shut <= Apply(s, l).core.os.shut
  {
    hide CloseAll;
    if l.StopSweeps? {
      SweepShutsNothing(s.core.os, s.core.conns);
    }
  }

  lemma {:induction false} SweepShutsNothing(os: Os, fds: seq<Fd>)
    ensures CloseAll(os, fds).shut == os.shut
    decreases |fds|
  {
    if fds != [] {
      SweepShutsNothing(os, fds[..|fds| - 1]);
    }
  }

  lemma {:induction false} StopAdvances(s: State, l: Label)
    requires Enabled(s, l) && Owned(s)
    ensures ConnectionsShut(Apply(s, l).stop) ==> ConnectionsShut(s.stop) || (l.StopShuts? && s.stop.Shutting?)
    ensures Apply(s, l).stop.Shutting? ==> s.stop.Shutting? || (l.StopWakes? && 0 in Apply(s, l).core.os.shut)
  {
    hide CloseAll;
    hide Erase;
    hide Distinct;
  }

  lemma {:induction false} NoNewHandlers(s: State, l: Label, t: nat)
    requires Enabled(s, l) && Ordered(s) && ConnectionsShut(Apply(s, l).stop)
    ensures Live(Apply(s, l), t) ==> Live(s, t)
  {
    hide CloseAll;
    hide Erase;
  }

  lemma {:induction false} ListedAreShut(s: State, t: nat)
    requires Enabled(s, StopShuts) && Owned(s) && Live(s, t)
    ensures t + 1 in Apply(s, StopShuts).core.os.shut
  {
    assert HandlerOk(s, t);
    var i :| 0 <= i < |s.core.conns| && s.core.conns[i] == s.handlers[t].fd;
    assert s.core.os.open[s.core.conns[i]] == t + 1;
  }

  lemma {:induction false} WokenStep(s: State, l: Label)
    requires Invariant(s) && Woken(s) && Enabled(s, l)
    ensures Woken(Apply(s, l))
  {
    hide Apply;
    hide Enabled;
    hide Owned;
    hide Ordered;
    hide ClosedOnce;
    var s' := Apply(s, l);
    ShutStays(s, l);
    StopAdvances(s, l);
    forall t: nat | ConnectionsShut(s'.stop) && Live(s', t)
      ensures t + 1 in s'.core.os.shut
    {
      NoNewHandlers(s, l, t);
      if l.StopShuts? {
        ListedAreShut(s, t);
      }
    }
  }

  lemma {:induction false} RunWoken(listener: Fd, labels: seq<Label>)
    ensures Woken(Exec(listener, labels))
    decreases |labels|
  {
    hide Apply;
    hide Enabled;
    if labels != [] {
      var before, l := labels[..|labels| - 1], labels[|labels| - 1];
      RunWoken(listener, before);
      RunInvariant(listener, before);
      if Enabled(Exec(listener, before), l) {
        WokenStep(Exec(listener, before), l);
      }
    }
  }

  /** Whoever `stop` waits for has been woken: the accept loop by the shutdown of the listening socket,
      each handler by that of its own connection. */
  lemma {:induction false} StopWakesWhomItAwaits(listener: Fd, labels: seq<Label>, thread: nat)
    ensures var s := Exec(listener, labels);
            && (s.stop.JoiningAcceptor? ==> 0 in s.core.os.shut)
            && (s.stop.Joining? && Live(s, thread) ==> s.handlers[thread].number in s.core.os.shut)
  {
    hide Exec;
    RunWoken(listener, labels);
    RunInvariant(listener, labels);
  }

  // ------------------------------------------------------------ connections are served

  lemma {:induction false} ExecNext(listener: Fd, labels: seq<Label>, l: Label)
    ensures var s := Exec(listener, labels);
            Exec(listener, labels + [l]) == if Enabled(s, l) then Apply(s, l) else s
  {
    assert (labels + [l])[..|labels|] == labels;
  }

  /** While the endpoint runs, a connection that is accepted gets a handler of its own, and the accept
      loop is ready for the next one. */
  lemma {:induction false} AcceptedIsServed(listener: Fd, labels: seq<Label>, fd: Fd)
    requires var s := Exec(listener, labels); s.core.running && s.acceptor == Polling && fd !in s.core.os.open
    ensures var (s, s') := (Exec(listener, labels), Exec(listener, labels + [Accept(fd)] + [Register]));
            && s'.handlers == s.handlers + [Handler(fd, s.sockets, Serving)] && s'.acceptor == Polling
            && fd in s'.core.conns && Owns(s', fd, s.sockets)
  {
    hide Exec;
    ExecNext(listener, labels, Accept(fd));
    ExecNext(listener, labels + [Accept(fd)], Register);
  }

  /** A fresh endpoint runs and accepts. */
  lemma {:induction false} FreshEndpointAccepts(listener: Fd, fd: Fd)
    requires fd != listener
    ensures Exec(listener, [Accept(fd), Register]).handlers == [Handler(fd, 1, Serving)]
  {
    assert [Accept(fd), Register] == [] + [Accept(fd)] + [Register];
    assert Exec(listener, []) == Started(listener);
    AcceptedIsServed(listener, [], fd);
  }

  /** A handler that comes to its end closes its connection, whatever else is going on. */
  lemma {:induction false} HandlerLeaves(listener: Fd, labels: seq<Label>, thread: nat)
    requires InPhase(Exec(listener, labels), thread, Serving)
    ensures var (s, s') := (Exec(listener, labels), Exec(listener, labels + [ShutOwn(thread)] + [Leave(thread)]));
            && InPhase(s', thread, Done) && s.handlers[thread].fd !in s'.core.os.open
            && s'.core.os.closed[s.handlers[thread].number] == 1
  {
    hide Exec;
    RunInvariant(listener, labels);
    var s := Exec(listener, labels);
    assert HandlerOk(s, thread);
    ExecNext(listener, labels, ShutOwn(thread));
    ExecNext(listener, labels + [ShutOwn(thread)], Leave(thread));
    hide ClosedOnce;
    EachClosedAtMostOnce(listener, labels, s.handlers[thread].number, thread);
  }

  /** `stop` can be called while the endpoint runs, and never again. */
  lemma {:induction false} StopIsCalledOnce(listener: Fd, labels: seq<Label>)
    ensures var (s, s') := (Exec(listener, labels), Exec(listener, labels + [StopCalled]));
            if s.core.running then s'.stop == Waking && !s'.core.running else s' == s
  {
    hide Exec;
    ExecNext(listener, labels, StopCalled);
  }

  /** After a stop was called an accepted connection is refused and closed, and no handler is started. */
  lemma {:induction false} AcceptedTooLate(listener: Fd, labels: seq<Label>)
    requires var s := Exec(listener, labels); !s.core.running && s.acceptor.Holding?
    ensures var (s, s') := (Exec(listener, labels), Exec(listener, labels + [Register]));
            s'.acceptor == Exited && s'.handlers == s.handlers && s.acceptor.fd !in s'.core.os.open
  {
    hide Exec;
    RunInvariant(listener, labels);
    ExecNext(listener, labels, Register);
  }

  // ------------------------------------------------------------ stop returns

  function PhaseSteps(p: Phase): nat {
    match p
    case Serving => 2
    case Leaving => 1
    case Done => 0
  }

  function HandlerSteps(handlers: seq<Handler>): nat {
    if handlers == [] then 0 else PhaseSteps(handlers[0].phase) + HandlerSteps(handlers[1..])
  }

  function StopSteps(stop: Stop): nat {
    match stop
    case NotCalled => 8
    case Waking => 7
    case Shutting => 6
    case JoiningAcceptor => 5
    case Swapping => 4
    case Joining(_) => 3
    case Sweeping => 2
    case ClosingListener => 1
    case Returned => 0
  }

  /** The most steps the endpoint can still take once `stop` was called. */
  function StepsLeft(s: State): nat {
    (match s.acceptor case Polling => 2 case Holding(_, _) => 1 case Exited => 0)
    + HandlerSteps(s.handlers) + StopSteps(s.stop)
  }

  lemma {:induction false} HandlerMoved(handlers: seq<Handler>, t: nat, phase: Phase)
    requires t < |handlers| && PhaseSteps(handlers[t].phase) == PhaseSteps(phase) + 1
    ensures HandlerSteps(handlers[t := handlers[t].(phase := phase)]) == HandlerSteps(handlers) - 1
  {
    var moved := handlers[t := handlers[t].(phase := phase)];
    if t > 0 {
      HandlerMoved(handlers[1..], t - 1, phase);
      assert moved[1..] == handlers[1..][t - 1 := handlers[t].(phase := phase)];
    } else {
      assert moved[1..] == handlers[1..];
    }
  }

  lemma EachStepCounts(s: State, l: Label)
    requires Ordered(s) && !s.core.running && Enabled(s, l)
    ensures StepsLeft(Apply(s, l)) < StepsLeft(s) && !Apply(s, l).core.running
  {
    match l
    case ShutOwn(thread) => HandlerMoved(s.handlers, thread, Leaving);
    case Leave(thread) => HandlerMoved(s.handlers, thread, Done);
    case _ =>
  }

  /** A run in which every label is a step that can be taken. */
  predicate AllTaken(listener: Fd, before: seq<Label>, labels: seq<Label>) {
    forall i :: 0 <= i < |labels| ==> Enabled(Exec(listener, before + labels[..i]), labels[i])
  }

  lemma {:induction false} FewerTaken(listener: Fd, before: seq<Label>, labels: seq<Label>)
    requires labels != [] && AllTaken(listener, before, labels)
    ensures var shorter := labels[..|labels| - 1];
            AllTaken(listener, before, shorter) && Enabled(Exec(listener, before + shorter), labels[|labels| - 1])
  {
    hide Exec;
    hide Enabled;
    var shorter := labels[..|labels| - 1];
    assert forall i :: 0 <= i < |shorter| ==> shorter[..i] == labels[..i];
  }

  /** Once `stop` was called only a bounded number of steps remain, whatever order they come in. */
  lemma {:induction false} StopIsBounded(listener: Fd, before: seq<Label>, labels: seq<Label>)
    requires !Exec(listener, before).core.running && AllTaken(listener, before, labels)
    ensures !Exec(listener, before + labels).core.running
    ensures |labels| + StepsLeft(Exec(listener, before + labels)) <= StepsLeft(Exec(listener, before))
    decreases |labels|
  {
    hide Apply;
    hide Enabled;
    hide StepsLeft;
    if labels == [] {
      assert before + labels == before;
    } else {
      var shorter, l := labels[..|labels| - 1], labels[|labels| - 1];
      FewerTaken(listener, before, labels);
      StopIsBounded(listener, before, shorter);
      RunInvariant(listener, before + shorter);
      hide Ordered;
      hide AllTaken;
      var s := Exec(listener, before + shorter);
      ExecNext(listener, before + shorter, l);
      assert before + shorter + [l] == before + labels;
      EachStepCounts(s, l);
    }
  }

  /** The next step of some thread `stop` waits for, or of `stop` itself. */
  function NextStep(s: State): Label {
    match s.stop
    case NotCalled => StopCalled
    case Waking => StopWakes
    case Shutting => StopShuts
    case JoiningAcceptor =>
      (match s.acceptor case Polling => AcceptorExits case Holding(_, _) => Register case Exited => StopJoinsAcceptor)
    case Swapping => StopSwaps
    case Joining(threads) =>
      (match FirstUnfinished(s, threads)
       case None => StopJoinsHandlers
       case Some(t) => if InPhase(s, t, Serving) then ShutOwn(t) else Leave(t))
    case Sweeping => StopSweeps
    case ClosingListener => StopClosesListener
    case Returned => StopCalled
  }

  function FirstUnfinished(s: State, threads: seq<nat>): (t: Option<nat>)
    ensures t.None? ==> AllDone(s, threads)
    ensures t.Some? ==> t.value in threads && !InPhase(s, t.value, Done)
  {
    if threads == [] then None
    else if !InPhase(s, threads[0], Done) then Some(threads[0])
    else FirstUnfinished(s, threads[1..])
  }

  /** `stop` is never stuck: until it returns, a step can be taken. */
  lemma StopIsNeverStuck(listener: Fd, labels: seq<Label>)
    requires !Exec(listener, labels).core.running && !Exec(listener, labels).stop.Returned?
    ensures var s := Exec(listener, labels); Enabled(s, NextStep(s))
  {
    RunInvariant(listener, labels);
    hide Owned;
    hide ClosedOnce;
  }
}
