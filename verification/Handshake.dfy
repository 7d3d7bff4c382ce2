/** The two-party initialize handshake between one `ClientSession` and one `ServerSession` over
    FIFO channels. Checks and state changes that the code makes separately are separate steps, so
    a close can fall between them; a refused or timed-out client may try again. */
module Handshake {
  import opened Wrappers

  datatype Phase = Uninitialized | Initializing | Operating | Shutdown

  datatype ToServer = Initialize(id: nat, version: string) | Initialized

  datatype ToClient = Negotiated(id: nat, version: string) | Refused(id: nat)

  /** Where `ClientSession::initialize` is. */
  datatype ClientPoint =
    | Idle
    | Entering
    | Sending
    | Waiting(id: nat)
    | Failing
    | Rejecting
    | Accepting(version: string)
    | Announced

  /** Where the server's reader is. */
  datatype ServerPoint =
    | Ready
    | Initiating(id: nat, version: string)
    | Replying(reply: ToClient)
    | Completing

  /** The supported version lists, most preferred first. */
  datatype Versions = Versions(client: seq<string>, server: seq<string>)

  ghost predicate NonEmpty(v: Versions) {
    v.client != [] && v.server != []
  }

  // Which initialize the server processed, and the version it answered with.
  datatype Processed = Processed(id: nat, version: string)

  datatype State = State(
    client: Phase, clientAt: ClientPoint, nextId: nat,
    server: Phase, serverAt: ServerPoint,
    toServer: seq<ToServer>, toClient: seq<ToClient>,
    // History: what the server processed and what the client accepted.
    processed: Option<Processed>, accepted: Option<string>)

  const START := State(Uninitialized, Idle, 1, Uninitialized, Ready, [], [], None, None)

  /** The server's choice: the requested version if it is supported, else its preferred one. */
  function Negotiate(requested: string, supported: seq<string>): (version: string)
    requires supported != []
    ensures version in supported && (requested in supported ==> version == requested)
  {
    if requested in supported then requested else supported[0]
  }

  method NegotiateLoop(requested: string, supported: seq<string>) returns (negotiated: string)
    requires supported != []
    ensures negotiated == Negotiate(requested, supported)
  {
    negotiated := supported[0];
    for i := 0 to |supported|
      invariant requested !in supported[..i] && negotiated == supported[0]
    {
      if supported[i] == requested {
        return supported[i];
      }
    }
  }

  datatype Label =
    | ClientCheck
    | ClientEnter
    | ClientSend
    | ClientReceive
    | ClientGiveUp
    | ClientFail
    | ClientReject
    | ClientAnnounce
    | ClientOperate
    | ClientClose
    | ServerReceive
    | ServerEnter
    | ServerReply
    | ServerOperate
    | ServerClose

  predicate Enabled(s: State, l: Label) {
    match l
    case ClientCheck => s.clientAt == Idle && s.client == Uninitialized
    case ClientEnter => s.clientAt == Entering
    case ClientSend => s.clientAt == Sending
    case ClientReceive => s.toClient != []
    case ClientGiveUp => s.clientAt.Waiting?
    case ClientFail => s.clientAt == Failing
    case ClientReject => s.clientAt == Rejecting
    case ClientAnnounce => s.clientAt.Accepting?
    case ClientOperate => s.clientAt == Announced
    case ClientClose => true
    case ServerReceive => s.serverAt == Ready && s.toServer != []
    case ServerEnter => s.serverAt.Initiating?
    case ServerReply => s.serverAt.Replying?
    case ServerOperate => s.serverAt == Completing
    case ServerClose => true
  }

  function Apply(v: Versions, s: State, l: Label): State
    requires v.client != [] && v.server != [] && Enabled(s, l)
  {
    match l
    case ClientCheck => s.(clientAt := Entering)
    case ClientEnter => s.(client := Initializing, clientAt := Sending)
    case ClientSend =>
      s.(toServer := s.toServer + [Initialize(s.nextId, v.client[0])], nextId := s.nextId + 1, clientAt := Waiting(s.nextId))
    case ClientReceive =>
      var m := s.toClient[0];
      var rest := s.(toClient := s.toClient[1..]);
      if s.clientAt != Waiting(m.id) then rest
      else if m.Refused? then rest.(clientAt := Failing)
      else if m.version in v.client then rest.(clientAt := Accepting(m.version))
      else rest.(clientAt := Rejecting)
    case ClientGiveUp => s.(clientAt := Failing)
    case ClientFail => s.(client := Uninitialized, clientAt := Idle)
    case ClientReject => s.(client := Shutdown, clientAt := Idle)
    case ClientAnnounce =>
      s.(toServer := s.toServer + [Initialized], clientAt := Announced, accepted := Some(s.clientAt.version))
    case ClientOperate => s.(client := Operating, clientAt := Idle)
    case ClientClose => s.(client := Shutdown)
    case ServerReceive =>
      var m := s.toServer[0];
      var rest := s.(toServer := s.toServer[1..]);
      (match m
       case Initialize(id, version) =>
         if s.server != Uninitialized then rest.(serverAt := Replying(Refused(id)))
         else rest.(serverAt := Initiating(id, version))
       case Initialized => if s.server == Initializing then rest.(serverAt := Completing) else rest)
    case ServerEnter =>
      var version := Negotiate(s.serverAt.version, v.server);
      s.(server := Initializing, serverAt := Replying(Negotiated(s.serverAt.id, version)),
         processed := Some(Processed(s.serverAt.id, version)))
    case ServerReply => s.(toClient := s.toClient + [s.serverAt.reply], serverAt := Ready)
    case ServerOperate => s.(server := Operating, serverAt := Ready)
    case ServerClose => s.(server := Shutdown)
  }

  /** The state that `labels` lead to from `s`. */
  function ExecFrom(v: Versions, s: State, labels: seq<Label>): State
    requires v.client != [] && v.server != []
  {
    if labels == [] then s
    else
      var t := ExecFrom(v, s, labels[..|labels| - 1]);
      var l := labels[|labels| - 1];
      if Enabled(t, l) then Apply(v, t, l) else t
  }

  function Exec(v: Versions, labels: seq<Label>): State
    requires v.client != [] && v.server != []
  {
    ExecFrom(v, START, labels)
  }

  lemma {:induction false} ExecNext(v: Versions, s: State, labels: seq<Label>, l: Label)
    requires NonEmpty(v)
    ensures var t := ExecFrom(v, s, labels);
            ExecFrom(v, s, labels + [l]) == if Enabled(t, l) then Apply(v, t, l) else t
  {
    assert (labels + [l])[..|labels|] == labels;
  }

  lemma {:induction false} ExecNothing(v: Versions, s: State)
    requires NonEmpty(v)
    ensures ExecFrom(v, s, []) == s
  {
  }

  lemma {:induction false} ExecSplit(v: Versions, s: State, labels: seq<Label>, more: seq<Label>)
    requires NonEmpty(v)
    ensures ExecFrom(v, s, labels + more) == ExecFrom(v, ExecFrom(v, s, labels), more)
    decreases |more|
  {
    if more == [] {
      assert labels + more == labels;
    } else {
      var fewer, l := more[..|more| - 1], more[|more| - 1];
      ExecSplit(v, s, labels, fewer);
      ExecNext(v, s, labels + fewer, l);
      assert labels + fewer + [l] == labels + more;
    }
  }

  // ------------------------------------------------------------ the invariant

  ghost predicate Genuine(v: Versions, s: State, m: ToClient)
    requires NonEmpty(v)
  {
    m.Negotiated? ==> s.processed == Some(Processed(m.id, m.version))
  }

  /** The client holds the version the server answered with, and supports it. */
  ghost predicate Agreed(v: Versions, s: State, version: string)
    requires NonEmpty(v)
  {
    s.processed.Some? && s.processed.value.version == version && version in v.client
  }

  /** Some trace of a successful handshake is visible. */
  ghost predicate Concluded(s: State) {
    || s.clientAt == Announced || Initialized in s.toServer || s.serverAt == Completing
    || s.client == Operating || s.server == Operating
  }

  ghost predicate Invariant(v: Versions, s: State)
    requires NonEmpty(v)
  {
    && (forall m :: m in s.toServer && m.Initialize? ==> m.version == v.client[0])
    && (s.serverAt.Initiating? ==> s.serverAt.version == v.client[0])
    && (forall m :: m in s.toClient ==> Genuine(v, s, m))
    && (s.serverAt.Replying? ==> Genuine(v, s, s.serverAt.reply))
    && (s.processed.Some? ==>
          && s.server != Uninitialized && !s.serverAt.Initiating?
          && s.processed.value.version == Negotiate(v.client[0], v.server))
    && (s.clientAt.Accepting? ==> Agreed(v, s, s.clientAt.version))
    && (s.accepted.Some? ==> Agreed(v, s, s.accepted.value))
    && (Concluded(s) ==> s.accepted.Some?)
  }

  predicate IsServerStep(l: Label) {
    l == ServerReceive || l == ServerEnter || l == ServerReply || l == ServerOperate || l == ServerClose
  }

  lemma {:induction false} ClientStepKeeps(v: Versions, s: State, l: Label)
    requires NonEmpty(v) && Enabled(s, l) && Invariant(v, s) && !IsServerStep(l)
    ensures Invariant(v, Apply(v, s, l))
  {
    hide Negotiate;
    var s' := Apply(v, s, l);
    if l == ClientReceive {
      assert Genuine(v, s, s.toClient[0]);
    }
    forall m | m in s'.toClient
      ensures Genuine(v, s', m)
    {
      assert Genuine(v, s, m);
    }
  }

  lemma {:induction false} ServerStepKeeps(v: Versions, s: State, l: Label)
    requires NonEmpty(v) && Enabled(s, l) && Invariant(v, s) && IsServerStep(l)
    ensures Invariant(v, Apply(v, s, l))
  {
    hide Negotiate;
    var s' := Apply(v, s, l);
    if l == ServerReceive {
      assert s.toServer[0] in s.toServer;
    }
    forall m | m in s'.toClient
      ensures Genuine(v, s', m)
    {
      assert m in s.toClient ==> Genuine(v, s, m);
    }
  }

  lemma {:induction false} InvariantStep(v: Versions, s: State, l: Label)
    requires NonEmpty(v) && Enabled(s, l) && Invariant(v, s)
    ensures Invariant(v, Apply(v, s, l))
  {
    hide Invariant;
    hide Apply;
    if IsServerStep(l) {
      ServerStepKeeps(v, s, l);
    } else {
      ClientStepKeeps(v, s, l);
    }
  }

  lemma {:induction false} RunInvariant(v: Versions, labels: seq<Label>)
    requires NonEmpty(v)
    ensures Invariant(v, Exec(v, labels))
    decreases |labels|
  {
    if labels != [] {
      RunInvariant(v, labels[..|labels| - 1]);
      var s, l := Exec(v, labels[..|labels| - 1]), labels[|labels| - 1];
      if Enabled(s, l) {
        InvariantStep(v, s, l);
      }
    }
  }

  /** A server that is operating has a client that accepted the version the server answered with,
      and that version is in both lists. */
  lemma OperatingServerAgreed(v: Versions, labels: seq<Label>)
    requires NonEmpty(v) && Exec(v, labels).server == Operating
    ensures var s := Exec(v, labels);
            && s.accepted.Some? && s.processed.Some?
            && s.accepted.value == s.processed.value.version
            && s.accepted.value in v.client && s.accepted.value in v.server
  {
    RunInvariant(v, labels);
  }

  /** A client that is operating has a server that processed its initialize, with the same version. */
  lemma OperatingClientProcessed(v: Versions, labels: seq<Label>)
    requires NonEmpty(v) && Exec(v, labels).client == Operating
    ensures var s := Exec(v, labels);
            && s.server != Uninitialized
            && s.processed.Some? && s.accepted == Some(s.processed.value.version)
            && s.accepted.value in v.client && s.accepted.value in v.server
  {
    RunInvariant(v, labels);
  }

  // ------------------------------------------------------------ when the handshake succeeds

  /** The only version on which the two sides can agree is acceptable to the client exactly when
      one side's preferred version is in the other's list; a common version further down is not found. */
  lemma AgreementPossible(v: Versions)
    requires NonEmpty(v)
    ensures Negotiate(v.client[0], v.server) in v.client <==> v.client[0] in v.server || v.server[0] in v.client
  {
  }

  /** Otherwise no run at all, closed and repeated as it may be, gets either side to operate. */
  lemma {:induction false} NoAgreementNeverOperates(v: Versions, labels: seq<Label>)
    requires NonEmpty(v) && v.client[0] !in v.server && v.server[0] !in v.client
    ensures Exec(v, labels).client != Operating && Exec(v, labels).server != Operating
  {
    RunInvariant(v, labels);
    AgreementPossible(v);
  }

  // ------------------------------------------------------------ undisturbed runs

  predicate Disturbs(l: Label) {
    l == ClientClose || l == ServerClose || l == ClientGiveUp
  }

  /** Nobody closes and the client does not time out, whatever the order of the steps. */
  ghost predicate Undisturbed(labels: seq<Label>) {
    forall i :: 0 <= i < |labels| ==> !Disturbs(labels[i])
  }

  ghost predicate Settled(s: State) {
    forall l :: Enabled(s, l) ==> Disturbs(l)
  }

  predicate Quiet(s: State) {
    s.toServer == [] && s.toClient == []
  }

  /** Before the client has sent its request. */
  predicate NotAsked(s: State) {
    && Quiet(s) && s.server == Uninitialized && s.serverAt == Ready && s.nextId == 1
    && (match s.clientAt
        case Idle => s.client == Uninitialized
        case Entering => s.client == Uninitialized
        case Sending => s.client == Initializing
        case _ => false)
  }

  /** The request or its answer is on the way. */
  predicate Asked(v: Versions, s: State)
    requires v.client != [] && v.server != []
  {
    var answer := Negotiated(1, Negotiate(v.client[0], v.server));
    && s.client == Initializing && s.clientAt == Waiting(1)
    && (match s.serverAt
        case Ready =>
          || (s.server == Uninitialized && s.toServer == [Initialize(1, v.client[0])] && s.toClient == [])
          || (s.server == Initializing && s.toServer == [] && s.toClient == [answer])
        case Initiating(id, version) => Quiet(s) && s.server == Uninitialized && id == 1 && version == v.client[0]
        case Replying(reply) => Quiet(s) && s.server == Initializing && reply == answer
        case Completing => false)
  }

  /** The client has the answer and decides. */
  predicate Deciding(v: Versions, s: State)
    requires v.client != [] && v.server != []
  {
    var version := Negotiate(v.client[0], v.server);
    && Quiet(s) && s.server == Initializing && s.serverAt == Ready
    && (match s.clientAt
        case Accepting(chosen) => s.client == Initializing && chosen == version && version in v.client
        case Rejecting => s.client == Initializing && version !in v.client
        case Idle => s.client == Shutdown && version !in v.client
        case _ => false)
  }

  /** The client has announced its acceptance; the two sides finish in either order. */
  predicate Finishing(v: Versions, s: State)
    requires v.client != [] && v.server != []
  {
    && Negotiate(v.client[0], v.server) in v.client && s.toClient == []
    && ((s.clientAt == Announced && s.client == Initializing) || (s.clientAt == Idle && s.client == Operating))
    && (match s.serverAt
        case Ready =>
          (s.toServer == [Initialized] && s.server == Initializing) || (s.toServer == [] && s.server == Operating)
        case Completing => s.toServer == [] && s.server == Initializing
        case _ => false)
  }

  predicate OnCourse(v: Versions, s: State)
    requires v.client != [] && v.server != []
  {
    NotAsked(s) || Asked(v, s) || Deciding(v, s) || Finishing(v, s)
  }

  function ClientStepsLeft(s: State): nat {
    match s.clientAt
    case Idle => if s.client == Uninitialized then 6 else 0
    case Entering => 5
    case Sending => 4
    case Waiting(_) => 3
    case Accepting(_) => 2
    case _ => 1
  }

  function ServerStepsLeft(s: State): nat {
    match s.serverAt
    case Ready => if s.server == Uninitialized then 5 else if s.server == Initializing then 2 else 0
    case Initiating(_, _) => 4
    case Replying(_) => 3
    case Completing => 1
  }

  lemma {:induction false} StaysOnCourse(v: Versions, s: State, l: Label)
    requires NonEmpty(v) && Enabled(s, l) && !Disturbs(l) && OnCourse(v, s)
    ensures OnCourse(v, Apply(v, s, l))
    ensures var s' := Apply(v, s, l);
            ClientStepsLeft(s') + ServerStepsLeft(s') < ClientStepsLeft(s) + ServerStepsLeft(s)
  {
    if NotAsked(s) {
    } else if Asked(v, s) {
    } else if Deciding(v, s) {
    } else {
      assert Finishing(v, s);
    }
  }

  lemma {:induction false} UndisturbedIsOnCourse(v: Versions, labels: seq<Label>)
    requires NonEmpty(v) && Undisturbed(labels)
    ensures OnCourse(v, Exec(v, labels))
    decreases |labels|
  {
    hide OnCourse;
    hide Apply;
    hide Enabled;
    if labels == [] {
      StartIsOnCourse(v);
    } else {
      var s, l := Exec(v, labels[..|labels| - 1]), labels[|labels| - 1];
      UndisturbedIsOnCourse(v, labels[..|labels| - 1]);
      if Enabled(s, l) {
        StaysOnCourse(v, s, l);
      }
    }
  }

  lemma StartIsOnCourse(v: Versions)
    requires NonEmpty(v)
    ensures OnCourse(v, START)
  {
  }

  /** A run in which every label is a step that can be taken. */
  ghost predicate AllTaken(v: Versions, labels: seq<Label>)
    requires NonEmpty(v)
  {
    forall i :: 0 <= i < |labels| ==> Enabled(Exec(v, labels[..i]), labels[i])
  }

  /** An undisturbed handshake takes at most eleven steps, in whatever order. */
  lemma {:induction false} UndisturbedSettles(v: Versions, labels: seq<Label>)
    requires NonEmpty(v) && Undisturbed(labels) && AllTaken(v, labels)
    ensures |labels| + ClientStepsLeft(Exec(v, labels)) + ServerStepsLeft(Exec(v, labels)) <= 11
    decreases |labels|
  {
    hide Apply;
    hide Enabled;
    hide OnCourse;
    if labels == [] {
      ExecNothing(v, START);
    } else {
      var fewer, l := labels[..|labels| - 1], labels[|labels| - 1];
      assert forall i :: 0 <= i < |fewer| ==> fewer[..i] == labels[..i];
      UndisturbedSettles(v, fewer);
      UndisturbedIsOnCourse(v, fewer);
      assert Enabled(Exec(v, fewer), l);
      StaysOnCourse(v, Exec(v, fewer), l);
    }
  }

  /** Every undisturbed run that has come to rest ends with both sides operating exactly when one
      side's preferred version is in the other's list; otherwise the client has disconnected and the
      server never operates. */
  lemma {:induction false} UndisturbedOutcome(v: Versions, labels: seq<Label>)
    requires NonEmpty(v) && Undisturbed(labels) && Settled(Exec(v, labels))
    ensures var s := Exec(v, labels);
            if v.client[0] in v.server || v.server[0] in v.client
            then s.client == Operating && s.server == Operating
            else s.client == Shutdown && s.server == Initializing
  {
    UndisturbedIsOnCourse(v, labels);
    AgreementPossible(v);
    var s := Exec(v, labels);
    hide ExecFrom;
    assert !Enabled(s, ClientCheck) && !Enabled(s, ClientEnter) && !Enabled(s, ClientSend) && !Enabled(s, ClientReceive);
    assert !Enabled(s, ClientReject) && !Enabled(s, ClientAnnounce) && !Enabled(s, ClientOperate);
    assert !Enabled(s, ServerReceive) && !Enabled(s, ServerEnter) && !Enabled(s, ServerReply) && !Enabled(s, ServerOperate);
  }

  // ------------------------------------------------------------ a close is not always final

  /** The client is at a point from which `initialize` no longer writes the phase. */
  predicate ClientLetsGo(s: State) {
    s.clientAt == Idle || s.clientAt == Rejecting
  }

  predicate ServerLetsGo(s: State) {
    s.serverAt == Ready || s.serverAt.Replying?
  }

  lemma {:induction false} ClosedClientKept(v: Versions, s: State, labels: seq<Label>)
    requires NonEmpty(v) && s.client == Shutdown && ClientLetsGo(s)
    ensures ExecFrom(v, s, labels).client == Shutdown && ClientLetsGo(ExecFrom(v, s, labels))
    decreases |labels|
  {
    if labels != [] {
      ClosedClientKept(v, s, labels[..|labels| - 1]);
    }
  }

  lemma {:induction false} ClosedServerKept(v: Versions, s: State, labels: seq<Label>)
    requires NonEmpty(v) && s.server == Shutdown && ServerLetsGo(s)
    ensures ExecFrom(v, s, labels).server == Shutdown && ServerLetsGo(ExecFrom(v, s, labels))
    decreases |labels|
  {
    if labels != [] {
      ClosedServerKept(v, s, labels[..|labels| - 1]);
    }
  }

  lemma {:induction false} ThreeSteps(v: Versions, s: State, a: Label, b: Label, c: Label)
    requires NonEmpty(v) && Enabled(s, a) && Enabled(Apply(v, s, a), b) && Enabled(Apply(v, Apply(v, s, a), b), c)
    ensures ExecFrom(v, s, [a]) == Apply(v, s, a)
    ensures ExecFrom(v, s, [a, b]) == Apply(v, Apply(v, s, a), b)
    ensures ExecFrom(v, s, [a, b, c]) == Apply(v, Apply(v, Apply(v, s, a), b), c)
  {
    hide Apply;
    hide Enabled;
    ExecNothing(v, s);
    ExecNext(v, s, [], a);
    ExecNext(v, s, [a], b);
    ExecNext(v, s, [a, b], c);
    assert [] + [a] == [a] && [a] + [b] == [a, b] && [a, b] + [c] == [a, b, c];
  }

  /** How a closed client comes back: `initialize` goes on from where it is. */
  lemma {:induction false} ClientComesBack(v: Versions, s: State) returns (labels: seq<Label>)
    requires NonEmpty(v) && s.client == Shutdown && !ClientLetsGo(s)
    ensures ExecFrom(v, s, labels).client != Shutdown
    ensures ExecFrom(v, s, labels).client == match s.clientAt case Entering => Initializing
                                                              case Accepting(_) => Operating
                                                              case Announced => Operating
                                                              case _ => Uninitialized
  {
    hide ExecFrom;
    match s.clientAt
    case Entering =>
      labels := [ClientEnter];
      ThreeSteps(v, s, ClientEnter, ClientClose, ClientClose);
    case Sending =>
      labels := [ClientSend, ClientGiveUp, ClientFail];
      ThreeSteps(v, s, ClientSend, ClientGiveUp, ClientFail);
    case Waiting(_) =>
      labels := [ClientGiveUp, ClientFail];
      ThreeSteps(v, s, ClientGiveUp, ClientFail, ClientClose);
    case Failing =>
      labels := [ClientFail];
      ThreeSteps(v, s, ClientFail, ClientClose, ClientClose);
    case Accepting(_) =>
      labels := [ClientAnnounce, ClientOperate];
      ThreeSteps(v, s, ClientAnnounce, ClientOperate, ClientClose);
    case Announced =>
      labels := [ClientOperate];
      ThreeSteps(v, s, ClientOperate, ClientClose, ClientClose);
  }

  lemma {:induction false} ServerComesBack(v: Versions, s: State) returns (labels: seq<Label>)
    requires NonEmpty(v) && s.server == Shutdown && !ServerLetsGo(s)
    ensures ExecFrom(v, s, labels).server == if s.serverAt == Completing then Operating else Initializing
  {
    hide ExecFrom;
    if s.serverAt == Completing {
      labels := [ServerOperate];
      ThreeSteps(v, s, ServerOperate, ClientClose, ClientClose);
    } else {
      labels := [ServerEnter];
      ThreeSteps(v, s, ServerEnter, ClientClose, ClientClose);
    }
  }

  /** A closed client stays closed in every continuation exactly when no `initialize` is under way,
      or one that is about to disconnect. */
  lemma {:induction false} ClosedClientStaysClosed(v: Versions, s: State)
    requires NonEmpty(v) && s.client == Shutdown
    ensures (forall labels :: ExecFrom(v, s, labels).client == Shutdown) <==> ClientLetsGo(s)
  {
    if ClientLetsGo(s) {
      forall labels
        ensures ExecFrom(v, s, labels).client == Shutdown
      {
        ClosedClientKept(v, s, labels);
      }
    } else {
      var labels := ClientComesBack(v, s);
    }
  }

  /** A closed server stays closed exactly when its reader is not between a check of the phase and the
      write that follows it. */
  lemma {:induction false} ClosedServerStaysClosed(v: Versions, s: State)
    requires NonEmpty(v) && s.server == Shutdown
    ensures (forall labels :: ExecFrom(v, s, labels).server == Shutdown) <==> ServerLetsGo(s)
  {
    if ServerLetsGo(s) {
      forall labels
        ensures ExecFrom(v, s, labels).server == Shutdown
      {
        ClosedServerKept(v, s, labels);
      }
    } else {
      var labels := ServerComesBack(v, s);
    }
  }

  /** The same for a close anywhere in a run. */
  lemma {:induction false} ClientCloseIsFinal(v: Versions, labels: seq<Label>)
    requires NonEmpty(v)
    ensures (forall more :: Exec(v, labels + [ClientClose] + more).client == Shutdown) <==> ClientLetsGo(Exec(v, labels))
  {
    hide Apply;
    hide ExecFrom;
    var closed := Exec(v, labels + [ClientClose]);
    ExecNext(v, START, labels, ClientClose);
    CloseOnlyCloses(v, Exec(v, labels));
    forall more
      ensures Exec(v, labels + [ClientClose] + more) == ExecFrom(v, closed, more)
      ensures ClientLetsGo(closed) ==> ExecFrom(v, closed, more).client == Shutdown
    {
      ExecSplit(v, START, labels + [ClientClose], more);
      if ClientLetsGo(closed) {
        ClosedClientKept(v, closed, more);
      }
    }
    if !ClientLetsGo(closed) {
      var more := ClientComesBack(v, closed);
      assert Exec(v, labels + [ClientClose] + more).client != Shutdown;
    }
  }

  lemma {:induction false} ServerCloseIsFinal(v: Versions, labels: seq<Label>)
    requires NonEmpty(v)
    ensures (forall more :: Exec(v, labels + [ServerClose] + more).server == Shutdown) <==> ServerLetsGo(Exec(v, labels))
  {
    hide Apply;
    hide ExecFrom;
    var closed := Exec(v, labels + [ServerClose]);
    ExecNext(v, START, labels, ServerClose);
    CloseOnlyCloses(v, Exec(v, labels));
    forall more
      ensures Exec(v, labels + [ServerClose] + more) == ExecFrom(v, closed, more)
      ensures ServerLetsGo(closed) ==> ExecFrom(v, closed, more).server == Shutdown
    {
      ExecSplit(v, START, labels + [ServerClose], more);
      if ServerLetsGo(closed) {
        ClosedServerKept(v, closed, more);
      }
    }
    if !ServerLetsGo(closed) {
      var more := ServerComesBack(v, closed);
      assert Exec(v, labels + [ServerClose] + more).server != Shutdown;
    }
  }

  lemma CloseOnlyCloses(v: Versions, s: State)
    requires NonEmpty(v)
    ensures Enabled(s, ClientClose) && Apply(v, s, ClientClose) == s.(client := Shutdown)
    ensures Enabled(s, ServerClose) && Apply(v, s, ServerClose) == s.(server := Shutdown)
  {
  }

  /** The ordinary way: the close fails the waiting `initialize`, which leaves the closed client
      ready to be initialized again. */
  lemma {:induction false} CloseCanBeOverwritten(v: Versions)
    requires NonEmpty(v)
    ensures var labels := [ClientCheck, ClientEnter, ClientSend, ClientClose];
            && Exec(v, labels).client == Shutdown
            && Exec(v, labels + [ClientGiveUp, ClientFail]).client == Uninitialized
            && Enabled(Exec(v, labels + [ClientGiveUp, ClientFail]), ClientCheck)
  {
    hide ExecFrom;
    var asking := [ClientCheck, ClientEnter, ClientSend];
    Asking(v);
    ThreeSteps(v, AskedState(v), ClientClose, ClientGiveUp, ClientFail);
    ExecSplit(v, START, asking, [ClientClose]);
    ExecSplit(v, START, asking, [ClientClose, ClientGiveUp, ClientFail]);
    assert asking + [ClientClose] == [ClientCheck, ClientEnter, ClientSend, ClientClose];
    assert asking + [ClientClose, ClientGiveUp, ClientFail] == asking + [ClientClose] + [ClientGiveUp, ClientFail];
  }

  function AskedState(v: Versions): State
    requires NonEmpty(v)
  {
    State(Initializing, Waiting(1), 2, Uninitialized, Ready, [Initialize(1, v.client[0])], [], None, None)
  }

  function AnsweredState(v: Versions): State
    requires NonEmpty(v)
  {
    var version := Negotiate(v.client[0], v.server);
    State(Initializing, Waiting(1), 2, Initializing, Ready, [], [Negotiated(1, version)], Some(Processed(1, version)), None)
  }

  lemma {:induction false} Asking(v: Versions)
    requires NonEmpty(v)
    ensures Exec(v, [ClientCheck, ClientEnter, ClientSend]) == AskedState(v)
  {
    hide ExecFrom;
    ThreeSteps(v, START, ClientCheck, ClientEnter, ClientSend);
  }

  lemma {:induction false} Answering(v: Versions)
    requires NonEmpty(v)
    ensures ExecFrom(v, AskedState(v), [ServerReceive, ServerEnter, ServerReply]) == AnsweredState(v)
  {
    hide ExecFrom;
    ThreeSteps(v, AskedState(v), ServerReceive, ServerEnter, ServerReply);
  }

  lemma {:induction false} Closing(v: Versions)
    requires NonEmpty(v) && Negotiate(v.client[0], v.server) in v.client
    ensures var s := ExecFrom(v, AnsweredState(v), [ClientReceive, ClientAnnounce, ClientClose]);
            s.client == Shutdown && s.clientAt == Announced
  {
    hide ExecFrom;
    ThreeSteps(v, AnsweredState(v), ClientReceive, ClientAnnounce, ClientClose);
  }

  /** The rare way: a close just before the last step leaves the client operating on a closed session. */
  lemma {:induction false} ClosedSessionCanOperate(v: Versions)
    requires NonEmpty(v) && (v.client[0] in v.server || v.server[0] in v.client)
    ensures var labels := [ClientCheck, ClientEnter, ClientSend] + [ServerReceive, ServerEnter, ServerReply]
                          + [ClientReceive, ClientAnnounce, ClientClose];
            Exec(v, labels).client == Shutdown && Exec(v, labels + [ClientOperate]).client == Operating
  {
    var asking, answering := [ClientCheck, ClientEnter, ClientSend], [ServerReceive, ServerEnter, ServerReply];
    var closing := [ClientReceive, ClientAnnounce, ClientClose];
    AgreementPossible(v);
    Asking(v);
    Answering(v);
    Closing(v);
    hide AskedState;
    hide AnsweredState;
    hide ExecFrom;
    ExecSplit(v, START, asking, answering);
    ExecSplit(v, START, asking + answering, closing);
    ExecNext(v, START, asking + answering + closing, ClientOperate);
  }

  // ------------------------------------------------------------ what each side does with a message

  /** What the client does with the next answer: it drops one that it does not wait for, goes back to
      the start on a refusal, disconnects on a version it does not support, and otherwise announces
      its acceptance and operates. */
  lemma {:induction false} ClientTakesAnswer(v: Versions, s: State)
    requires NonEmpty(v) && s.toClient != []
    ensures var (m, rest) := (s.toClient[0], s.(toClient := s.toClient[1..]));
            if s.clientAt != Waiting(m.id) then ExecFrom(v, s, [ClientReceive]) == rest
            else if m.Refused? then
              ExecFrom(v, s, [ClientReceive, ClientFail]) == rest.(client := Uninitialized, clientAt := Idle)
            else if m.version !in v.client then
              ExecFrom(v, s, [ClientReceive, ClientReject]) == rest.(client := Shutdown, clientAt := Idle)
            else
              ExecFrom(v, s, [ClientReceive, ClientAnnounce, ClientOperate]) ==
              rest.(client := Operating, clientAt := Idle, accepted := Some(m.version), toServer := s.toServer + [Initialized])
  {
    hide ExecFrom;
    var m := s.toClient[0];
    if s.clientAt != Waiting(m.id) {
      ThreeSteps(v, s, ClientReceive, ClientClose, ClientClose);
    } else if m.Refused? {
      ThreeSteps(v, s, ClientReceive, ClientFail, ClientClose);
    } else if m.version !in v.client {
      ThreeSteps(v, s, ClientReceive, ClientReject, ClientClose);
    } else {
      ThreeSteps(v, s, ClientReceive, ClientAnnounce, ClientOperate);
    }
  }

  /** What the server does with the next message: it answers the first initialize with its choice and
      refuses any other, and operates on the announcement that follows. */
  lemma {:induction false} ServerTakesMessage(v: Versions, s: State)
    requires NonEmpty(v) && s.toServer != [] && s.serverAt == Ready
    ensures var (m, rest) := (s.toServer[0], s.(toServer := s.toServer[1..]));
            match m
            case Initialize(id, requested) =>
              if s.server != Uninitialized then
                ExecFrom(v, s, [ServerReceive, ServerReply]) == rest.(toClient := s.toClient + [Refused(id)])
              else
                var version := if requested in v.server then requested else v.server[0];
                ExecFrom(v, s, [ServerReceive, ServerEnter, ServerReply]) ==
                rest.(server := Initializing, toClient := s.toClient + [Negotiated(id, version)], processed := Some(Processed(id, version)))
            case Initialized =>
              if s.server == Initializing then ExecFrom(v, s, [ServerReceive, ServerOperate]) == rest.(server := Operating)
              else ExecFrom(v, s, [ServerReceive]) == rest
  {
    hide ExecFrom;
    match s.toServer[0]
    case Initialize(_, _) =>
      if s.server != Uninitialized {
        ThreeSteps(v, s, ServerReceive, ServerReply, ClientClose);
      } else {
        ThreeSteps(v, s, ServerReceive, ServerEnter, ServerReply);
      }
    case Initialized =>
      if s.server == Initializing {
        ThreeSteps(v, s, ServerReceive, ServerOperate, ClientClose);
      } else {
        ThreeSteps(v, s, ServerReceive, ClientClose, ClientClose);
      }
  }
}
