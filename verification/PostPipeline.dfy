/** Answering a POST: the responses produced while its messages are dispatched are captured per
    thread and become the body of the answer. */
module PostPipeline {
  import opened Identifiers
  import opened JsonValues
  import opened Messages
  import opened Router
  import opened Wrappers

  type Thread = nat

  type CaptureTable = map<Thread, seq<Json>>

  /** `body` is the JSON the 200 answer carries. */
  datatype Answer = Accepted | Ok200(body: Json)

  // ------------------------------------------------------------ the capture table

  /** The table shared by all connection threads; `thread` is the calling thread. */
  class PostCapture {
    var table: CaptureTable

    constructor ()
      ensures table == map[]
    {
      table := map[];
    }

    method Begin(thread: Thread)
      modifies this
      ensures table == old(table)[thread := []]
    {
      table := table[thread := []];
    }

    method End(thread: Thread)
      modifies this
      ensures table == old(table) - {thread}
    {
      table := table - {thread};
    }

    /** A message is captured only if it is a response and the thread is answering a POST. */
    method TryCapture(thread: Thread, m: Message) returns (captured: bool)
      modifies this
      ensures captured == (m.Response? && thread in old(table))
      ensures table == if captured then old(table)[thread := old(table)[thread] + [ToJson(m)]] else old(table)
    {
      if !m.Response? || thread !in table {
        return false;
      }
      table := table[thread := table[thread] + [ToJson(m)]];
      captured := true;
    }

    method AddErrorResponse(thread: Thread, error: RpcError)
      modifies this
      ensures table == if thread in old(table) then old(table)[thread := old(table)[thread] + [ToJson(NullIdError(error))]]
                       else old(table)
    {
      if thread in table {
        table := table[thread := table[thread] + [ToJson(NullIdError(error))]];
      }
    }

    method Body(thread: Thread, asBatch: bool) returns (body: Json)
      requires thread in table && table[thread] != []
      ensures body == BodyOf(table[thread], asBatch)
    {
      body := if asBatch then Arr(table[thread]) else table[thread][0];
    }

    /** A whole POST, on a thread that no other one disturbs; `session(i)` is the session when the
        i-th message reaches it. */
    method AnswerPost(thread: Thread, frame: Frame, session: nat -> Session) returns (answer: Answer)
      modifies this
      ensures table == old(table) - {thread}
      ensures IsAnswer(answer, frame, SessionsMet(session, |frame.messages|))
    {
      hide IsNullIdError;
      hide IsReplyTo;
      hide Reply;
      ghost var sessions := SessionsMet(session, |frame.messages|);
      Begin(thread);
      NothingAnswered(frame);
      assert sessions[..0] == [];
      for i := 0 to |frame.itemErrors|
        invariant thread in table && Answers(table[thread], frame, i, sessions[..0])
        invariant table - {thread} == old(table) - {thread}
      {
        ErrorAdded(table[thread], frame, i);
        AddErrorResponse(thread, frame.itemErrors[i]);
      }
      for i := 0 to |frame.messages|
        invariant thread in table && Answers(table[thread], frame, |frame.itemErrors|, sessions[..i])
        invariant table - {thread} == old(table) - {thread}
      {
        MessageDelivered(table[thread], frame, sessions[..i], session(i));
        assert sessions[..i + 1] == sessions[..i] + [session(i)];
        if frame.messages[i].Request? {
          var _ := TryCapture(thread, Reply(session(i), frame.messages[i]));
        }
      }
      assert sessions[..|frame.messages|] == sessions;
      RequestedAreRequests(frame.messages, sessions);
      assert frame.messages[..|frame.messages|] == frame.messages;
      ghost var captured := table[thread];
      if table[thread] == [] {
        answer := Accepted;
      } else {
        var body := Body(thread, frame.wasBatch);
        answer := Ok200(body);
      }
      End(thread);
    }
  }

  function SessionsMet(session: nat -> Session, n: nat): (sessions: seq<Session>)
    ensures |sessions| == n && forall i :: 0 <= i < n ==> sessions[i] == session(i)
  {
    seq(n, i requires 0 <= i < n => session(i))
  }

  function BodyOf(captured: seq<Json>, asBatch: bool): Json
    requires captured != []
  {
    if asBatch then Arr(captured) else captured[0]
  }

  function NullIdError(error: RpcError): Message {
    Response(None, None, Some(error))
  }

  // ------------------------------------------------------------ one message

  /** What the session is when a message reaches it: its gate and its handlers. */
  datatype Session = Session(gate: string -> Option<RpcError>, handlers: Handlers)

  /** `handle_message` on a request sends exactly one response. */
  function Reply(s: Session, request: Message): (response: Message)
    requires request.Request?
    ensures response.Response? && response.to == Some(request.id) && response.result.Some? != response.error.Some?
  {
    match s.gate(request.name)
    case Some(error) => Response(Some(request.id), None, Some(error))
    case None => Dispatched(s.handlers, request)
  }

  // ------------------------------------------------------------ interleaved POSTs

  /** A POST being answered: how many item errors it has dealt with, and which session each message
      delivered so far has met. */
  datatype Post = Post(frame: Frame, errorsDone: nat, sessions: seq<Session>)

  /** A POST that was answered. */
  datatype Done = Done(frame: Frame, sessions: seq<Session>, answer: Answer)

  datatype State = State(table: CaptureTable, posts: map<Thread, Post>, stream: seq<Json>, answers: seq<Done>)

  const START := State(map[], map[], [], [])

  datatype Label =
    | Begin(thread: Thread, frame: Frame)
    | AddError(thread: Thread)
    // Dispatches the next message; `session` is the session at that moment.
    | Deliver(thread: Thread, session: Session)
    // Any thread sends a message of its own; a thread answering a POST sends no response this way.
    | Send(thread: Thread, message: Message)
    | Finish(thread: Thread)

  predicate Enabled(s: State, l: Label) {
    match l
    case Begin(thread, _) => thread !in s.posts
    case AddError(thread) => thread in s.posts && s.posts[thread].errorsDone < |s.posts[thread].frame.itemErrors|
    case Deliver(thread, _) =>
      && thread in s.posts && s.posts[thread].errorsDone == |s.posts[thread].frame.itemErrors|
      && |s.posts[thread].sessions| < |s.posts[thread].frame.messages|
    case Send(thread, message) => thread in s.posts ==> !message.Response?
    case Finish(thread) =>
      && thread in s.posts && s.posts[thread].errorsDone == |s.posts[thread].frame.itemErrors|
      && |s.posts[thread].sessions| == |s.posts[thread].frame.messages|
  }

  /** Responses of a thread that is answering a POST are captured; everything else goes to the stream. */
  function Sent(s: State, thread: Thread, m: Message): State {
    if m.Response? && thread in s.table then s.(table := s.table[thread := s.table[thread] + [ToJson(m)]])
    else s.(stream := s.stream + [ToJson(m)])
  }

  function CapturedBy(s: State, thread: Thread): seq<Json> {
    if thread in s.table then s.table[thread] else []
  }

  function Apply(s: State, l: Label): State
    requires Enabled(s, l)
  {
    match l
    case Begin(thread, frame) => s.(table := s.table[thread := []], posts := s.posts[thread := Post(frame, 0, [])])
    case AddError(thread) =>
      var p := s.posts[thread];
      var t := Sent(s, thread, NullIdError(p.frame.itemErrors[p.errorsDone]));
      t.(posts := s.posts[thread := p.(errorsDone := p.errorsDone + 1)])
    case Deliver(thread, session) =>
      var p := s.posts[thread];
      var m := p.frame.messages[|p.sessions|];
      var t := if m.Request? then Sent(s, thread, Reply(session, m)) else s;
      t.(posts := s.posts[thread := p.(sessions := p.sessions + [session])])
    case Send(thread, message) => Sent(s, thread, message)
    case Finish(thread) =>
      var captured, p := CapturedBy(s, thread), s.posts[thread];
      var answer := if captured == [] then Accepted else Ok200(BodyOf(captured, p.frame.wasBatch));
      s.(table := s.table - {thread}, posts := s.posts - {thread}, answers := s.answers + [Done(p.frame, p.sessions, answer)])
  }

  function Exec(labels: seq<Label>): State {
    if labels == [] then START
    else
      var s := Exec(labels[..|labels| - 1]);
      var l := labels[|labels| - 1];
      if Enabled(s, l) then Apply(s, l) else s
  }

  // ------------------------------------------------------------ what a POST must be answered with

  function Requests(messages: seq<Message>): (requests: seq<Message>)
    ensures forall i :: 0 <= i < |requests| ==> requests[i].Request?
  {
    if messages == [] then []
    else
      var rest := Requests(messages[..|messages| - 1]);
      if messages[|messages| - 1].Request? then rest + [messages[|messages| - 1]] else rest
  }

  /** The requests among the messages delivered so far, each with the session it met. */
  function Requested(messages: seq<Message>, sessions: seq<Session>): (requested: seq<(Message, Session)>)
    requires |sessions| <= |messages|
    ensures forall i :: 0 <= i < |requested| ==> requested[i].0.Request?
  {
    if sessions == [] then []
    else
      var n := |sessions| - 1;
      var rest := Requested(messages, sessions[..n]);
      if messages[n].Request? then rest + [(messages[n], sessions[n])] else rest
  }

  lemma {:induction false} RequestedAreRequests(messages: seq<Message>, sessions: seq<Session>)
    requires |sessions| <= |messages|
    ensures var (requested, requests) := (Requested(messages, sessions), Requests(messages[..|sessions|]));
            |requested| == |requests| && forall i :: 0 <= i < |requests| ==> requested[i].0 == requests[i]
    decreases |sessions|
  {
    if sessions != [] {
      var n := |sessions| - 1;
      RequestedAreRequests(messages, sessions[..n]);
      assert messages[..|sessions|][..n] == messages[..n];
    }
  }

  /** A response object of JSON-RPC 2.0 section 5 with this id: one of result and error, not both. */
  ghost predicate IsResponse(j: Json, id: Json) {
    && j.Obj? && "jsonrpc" in j.fields && j.fields["jsonrpc"] == Str("2.0")
    && "id" in j.fields && j.fields["id"] == id
    && ("result" in j.fields <==> "error" !in j.fields)
  }

  ghost predicate HasError(j: Json, error: RpcError) {
    j.Obj? && "error" in j.fields && j.fields["error"] == ErrorToJson(error)
  }

  ghost predicate IsNullIdError(j: Json, error: RpcError) {
    IsResponse(j, Null) && HasError(j, error)
  }

  /** The object carries what a handler did. */
  ghost predicate Carries(j: Json, r: HandlerResult) {
    match r
    case Returned(value) => j.Obj? && "result" in j.fields && j.fields["result"] == value
    case Failed(error) => HasError(j, error)
    case Threw(error) => HasError(j, error)
    case Crashed(what) => HasError(j, RpcError(-32603, what, None))
  }

  /** The right answer to a request that met this session: the gate's error, what its handler did to its
      params, or -32601 when it has none. */
  ghost predicate IsReplyTo(j: Json, request: Message, s: Session)
    requires request.Request?
  {
    && IsResponse(j, IdToJson(request.id))
    && match s.gate(request.name)
       case Some(error) => HasError(j, error)
       case None =>
         && (forall handler :: IsHandlerFor(s.handlers, request.name, handler) ==> Carries(j, handler(request.params)))
         && (NobodyHandles(s.handlers, request.name) ==> exists error: RpcError :: error.code == -32601 && HasError(j, error))
  }

  /** One null-id error for each of the first `e` rejected items, then the right answer to each request
      that was delivered, in order. */
  ghost predicate Answers(body: seq<Json>, frame: Frame, e: nat, sessions: seq<Session>)
    requires e <= |frame.itemErrors| && |sessions| <= |frame.messages|
  {
    var requested := Requested(frame.messages, sessions);
    && |body| == e + |requested|
    && (forall i :: 0 <= i < e ==> IsNullIdError(body[i], frame.itemErrors[i]))
    && forall i :: 0 <= i < |requested| ==> IsReplyTo(body[e + i], requested[i].0, requested[i].1)
  }

  ghost predicate IsAnswer(answer: Answer, frame: Frame, sessions: seq<Session>) {
    && |sessions| == |frame.messages|
    && match answer
       case Accepted => frame.itemErrors == [] && Requests(frame.messages) == []
       case Ok200(body) =>
         exists captured :: captured != [] && body == BodyOf(captured, frame.wasBatch)
           && Answers(captured, frame, |frame.itemErrors|, sessions)
  }

  ghost predicate PostOk(s: State, thread: Thread) {
    && thread in s.posts && thread in s.table
    && var p := s.posts[thread];
       && p.errorsDone <= |p.frame.itemErrors| && |p.sessions| <= |p.frame.messages|
       && (p.sessions != [] ==> p.errorsDone == |p.frame.itemErrors|)
       && Answers(s.table[thread], p.frame, p.errorsDone, p.sessions)
  }

  ghost predicate Invariant(s: State) {
    && s.table.Keys == s.posts.Keys
    && (forall t :: t in s.posts ==> PostOk(s, t))
    && forall i :: 0 <= i < |s.answers| ==> IsAnswer(s.answers[i].answer, s.answers[i].frame, s.answers[i].sessions)
  }

  lemma AnswerToRequest(m: Message)
    requires m.Response? && m.result.Some? != m.error.Some?
    ensures IsResponse(ToJson(m), if m.to.Some? then IdToJson(m.to.value) else Null)
    ensures m.error.Some? ==> HasError(ToJson(m), m.error.value)
    ensures m.result.Some? ==> ToJson(m).Obj? && "result" in ToJson(m).fields && ToJson(m).fields["result"] == m.result.value
  {
  }

  /** The session's reply to a request is the right one. */
  lemma {:induction false} ReplyIsRight(s: Session, request: Message)
    requires request.Request?
    ensures IsReplyTo(ToJson(Reply(s, request)), request, s)
  {
    AnswerToRequest(Reply(s, request));
    hide ToJson;
    hide IsResponse;
    if s.gate(request.name).None? {
      forall handler | IsHandlerFor(s.handlers, request.name, handler)
        ensures Carries(ToJson(Reply(s, request)), handler(request.params))
      {
        DispatchedConveys(s.handlers, request, handler);
      }
      if NobodyHandles(s.handlers, request.name) {
        DispatchedConveys(s.handlers, request, _ => Crashed(""));
      }
    }
  }

  lemma ErrorAdded(body: seq<Json>, frame: Frame, e: nat)
    requires e < |frame.itemErrors| && Answers(body, frame, e, [])
    ensures Answers(body + [ToJson(NullIdError(frame.itemErrors[e]))], frame, e + 1, [])
  {
    AnswerToRequest(NullIdError(frame.itemErrors[e]));
  }

  lemma {:induction false} MessageDelivered(body: seq<Json>, frame: Frame, sessions: seq<Session>, session: Session)
    requires |sessions| < |frame.messages| && Answers(body, frame, |frame.itemErrors|, sessions)
    ensures var message := frame.messages[|sessions|];
            Answers(if message.Request? then body + [ToJson(Reply(session, message))] else body,
                    frame, |frame.itemErrors|, sessions + [session])
  {
    hide IsReplyTo;
    hide IsNullIdError;
    assert (sessions + [session])[..|sessions|] == sessions;
    if frame.messages[|sessions|].Request? {
      ReplyIsRight(session, frame.messages[|sessions|]);
    }
  }

  lemma PostsPreserved(s: State, l: Label, t: Thread)
    requires Enabled(s, l) && Invariant(s) && t in Apply(s, l).posts
    ensures PostOk(Apply(s, l), t)
  {
    hide Answers;
    hide IsAnswer;
    hide Reply;
    assert t in s.posts ==> PostOk(s, t);
    match l
    case Begin(thread, frame) =>
      if t == thread {
        NothingAnswered(frame);
      }
    case AddError(thread) =>
      var p := s.posts[thread];
      assert PostOk(s, thread);
      if t == thread {
        ErrorAdded(s.table[thread], p.frame, p.errorsDone);
      }
    case Deliver(thread, session) =>
      var p := s.posts[thread];
      assert PostOk(s, thread);
      if t == thread {
        MessageDelivered(s.table[thread], p.frame, p.sessions, session);
      }
    case _ =>
  }

  lemma NothingAnswered(frame: Frame)
    ensures Answers([], frame, 0, [])
  {
  }

  lemma {:induction false} FinishedAnswer(s: State, thread: Thread)
    requires Enabled(s, Finish(thread)) && Invariant(s)
    ensures var answers := Apply(s, Finish(thread)).answers;
            && answers == s.answers + [answers[|s.answers|]]
            && IsAnswer(answers[|s.answers|].answer, answers[|s.answers|].frame, answers[|s.answers|].sessions)
  {
    hide IsReplyTo;
    hide IsNullIdError;
    assert PostOk(s, thread);
    var p, captured := s.posts[thread], s.table[thread];
    RequestedAreRequests(p.frame.messages, p.sessions);
    assert p.frame.messages[..|p.frame.messages|] == p.frame.messages;
    if captured != [] {
      assert Answers(captured, p.frame, |p.frame.itemErrors|, p.sessions);
    }
  }

  lemma InvariantStep(s: State, l: Label)
    requires Enabled(s, l) && Invariant(s)
    ensures Invariant(Apply(s, l))
  {
    hide PostOk;
    hide IsAnswer;
    var s' := Apply(s, l);
    forall t | t in s'.posts
      ensures PostOk(s', t)
    {
      PostsPreserved(s, l, t);
    }
    if l.Finish? {
      FinishedAnswer(s, l.thread);
    }
  }

  lemma {:induction false} RunInvariant(labels: seq<Label>)
    ensures Invariant(Exec(labels))
    decreases |labels|
  {
    if labels != [] {
      RunInvariant(labels[..|labels| - 1]);
      var s, l := Exec(labels[..|labels| - 1]), labels[|labels| - 1];
      if Enabled(s, l) {
        InvariantStep(s, l);
      }
    }
  }

  /** However POSTs are interleaved on their threads, each 200 body holds one null-id error per
      rejected item and then the right answer to each request, in order and with its id, and the answer
      is 202 exactly when there are neither. */
  lemma {:induction false} EveryPostAnswered(labels: seq<Label>, i: nat)
    requires i < |Exec(labels).answers|
    ensures var Done(frame, sessions, answer) := Exec(labels).answers[i];
            && IsAnswer(answer, frame, sessions)
            && (answer == Accepted <==> frame.itemErrors == [] && Requests(frame.messages) == [])
  {
    hide IsReplyTo;
    hide IsNullIdError;
    RunInvariant(labels);
    var Done(frame, sessions, answer) := Exec(labels).answers[i];
    assert IsAnswer(answer, frame, sessions);
    RequestedAreRequests(frame.messages, sessions);
    assert frame.messages[..|frame.messages|] == frame.messages;
  }

  /** A single message is answered with exactly the right response, or accepted. */
  lemma {:induction false} SingleAnswered(labels: seq<Label>, i: nat, m: Message)
    requires i < |Exec(labels).answers| && Exec(labels).answers[i].frame == Frame([m], [], false)
    ensures var Done(_, sessions, answer) := Exec(labels).answers[i];
            && |sessions| == 1
            && if m.Request? then answer.Ok200? && IsReplyTo(answer.body, m, sessions[0]) else answer == Accepted
  {
    hide Exec;
    hide IsReplyTo;
    hide IsNullIdError;
    EveryPostAnswered(labels, i);
    var Done(frame, sessions, answer) := Exec(labels).answers[i];
    assert [m][..1] == [m] && [m][..0] == [];
    assert Requests([m]) == if m.Request? then [m] else [];
    if answer.Ok200? {
      var captured :| captured != [] && answer.body == BodyOf(captured, false) && Answers(captured, frame, 0, sessions);
      assert sessions[..0] == [];
      assert Requested([m], sessions) == if m.Request? then [(m, sessions[0])] else [];
      var requested := Requested([m], sessions);
      assert requested != [] ==> IsReplyTo(captured[0 + 0], requested[0].0, requested[0].1);
    }
  }

  // ------------------------------------------------------------ every POST can be answered

  function Repeated(l: Label, n: nat): (labels: seq<Label>)
    ensures |labels| == n && forall i :: 0 <= i < n ==> labels[i] == l
  {
    seq(n, _ => l)
  }

  lemma {:induction false} ExecNext(labels: seq<Label>, l: Label)
    ensures Exec(labels + [l]) == if Enabled(Exec(labels), l) then Apply(Exec(labels), l) else Exec(labels)
  {
    assert (labels + [l])[..|labels|] == labels;
  }

  lemma {:induction false} RepeatedNext(labels: seq<Label>, l: Label, n: nat)
    ensures labels + Repeated(l, n + 1) == (labels + Repeated(l, n)) + [l]
  {
  }

  /** The posts and the answers after a step of this thread. */
  lemma {:induction false} OwnStep(labels: seq<Label>, thread: Thread, l: Label)
    requires l in {AddError(thread)} || (l.Deliver? && l.thread == thread)
    requires Enabled(Exec(labels), l)
    ensures var (s, s') := (Exec(labels), Exec(labels + [l]));
            && s'.answers == s.answers && thread in s.posts
            && s'.posts == s.posts[thread := if l.AddError? then s.posts[thread].(errorsDone := s.posts[thread].errorsDone + 1)
                                             else s.posts[thread].(sessions := s.posts[thread].sessions + [l.session])]
  {
    hide Exec;
    hide ToJson;
    hide Reply;
    ExecNext(labels, l);
  }

  lemma {:induction false} ErrorsGoThrough(labels: seq<Label>, thread: Thread, n: nat)
    requires thread in Exec(labels).posts
    requires Exec(labels).posts[thread].errorsDone + n <= |Exec(labels).posts[thread].frame.itemErrors|
    ensures var (s, s') := (Exec(labels), Exec(labels + Repeated(AddError(thread), n)));
            && s'.answers == s.answers
            && s'.posts == s.posts[thread := s.posts[thread].(errorsDone := s.posts[thread].errorsDone + n)]
    decreases n
  {
    hide Exec;
    hide Apply;
    if n == 0 {
      assert labels + Repeated(AddError(thread), 0) == labels;
    } else {
      ErrorsGoThrough(labels, thread, n - 1);
      RepeatedNext(labels, AddError(thread), n - 1);
      OwnStep(labels + Repeated(AddError(thread), n - 1), thread, AddError(thread));
    }
  }

  lemma {:induction false} MessagesGoThrough(labels: seq<Label>, thread: Thread, session: Session, n: nat)
    requires thread in Exec(labels).posts
    requires var p := Exec(labels).posts[thread];
             p.errorsDone == |p.frame.itemErrors| && |p.sessions| + n <= |p.frame.messages|
    ensures var (s, s') := (Exec(labels), Exec(labels + Repeated(Deliver(thread, session), n)));
            && s'.answers == s.answers
            && s'.posts == s.posts[thread := s.posts[thread].(sessions := s.posts[thread].sessions + SessionsMet(_ => session, n))]
    decreases n
  {
    hide Exec;
    hide Apply;
    var l, s := Deliver(thread, session), Exec(labels);
    if n == 0 {
      assert labels + Repeated(l, 0) == labels;
      assert s.posts[thread].sessions + SessionsMet(_ => session, 0) == s.posts[thread].sessions;
    } else {
      MessagesGoThrough(labels, thread, session, n - 1);
      RepeatedNext(labels, l, n - 1);
      OwnStep(labels + Repeated(l, n - 1), thread, l);
      assert s.posts[thread].sessions + SessionsMet(_ => session, n)
          == s.posts[thread].sessions + SessionsMet(_ => session, n - 1) + [session];
    }
  }

  /** From any state, a thread that is not answering a POST can take one and answer it: one step for
      each item error and each message, and one to finish. */
  lemma {:induction false} PostGoesThrough(labels: seq<Label>, thread: Thread, frame: Frame, session: Session)
    requires thread !in Exec(labels).posts
    ensures var (e, m) := (|frame.itemErrors|, |frame.messages|);
            var (s, s') := (Exec(labels), Exec(labels + [Begin(thread, frame)] + Repeated(AddError(thread), e)
                                               + Repeated(Deliver(thread, session), m) + [Finish(thread)]));
            && s'.posts == s.posts && |s'.answers| == |s.answers| + 1 && s.answers <= s'.answers
            && s'.answers[|s.answers|].frame == frame && s'.answers[|s.answers|].sessions == SessionsMet(_ => session, m)
  {
    hide Exec;
    var (e, m) := (|frame.itemErrors|, |frame.messages|);
    var begun := labels + [Begin(thread, frame)];
    ExecNext(labels, Begin(thread, frame));
    assert Exec(begun).posts[thread] == Post(frame, 0, []) && Exec(begun).answers == Exec(labels).answers;
    ErrorsGoThrough(begun, thread, e);
    var told := begun + Repeated(AddError(thread), e);
    MessagesGoThrough(told, thread, session, m);
    var delivered := told + Repeated(Deliver(thread, session), m);
    assert [] + SessionsMet(_ => session, m) == SessionsMet(_ => session, m);
    ExecNext(delivered, Finish(thread));
    assert Exec(labels).posts[thread := Exec(delivered).posts[thread]] - {thread} == Exec(labels).posts;
  }

  // ------------------------------------------------------------ what goes to the stream

  /** Every message that was sent by a thread of its own accord. */
  function OwnMessages(labels: seq<Label>): seq<Json> {
    if labels == [] then []
    else
      var before, l := labels[..|labels| - 1], labels[|labels| - 1];
      OwnMessages(before) + if l.Send? && Enabled(Exec(before), l) then [ToJson(l.message)] else []
  }

  /** The stream carries those messages, all of them and in order; what a POST is answered with never
      goes there. */
  lemma {:induction false} StreamCarriesTheRest(labels: seq<Label>)
    ensures Exec(labels).stream == OwnMessages(labels)
    decreases |labels|
  {
    hide ToJson;
    hide Reply;
    if labels != [] {
      var before, l := labels[..|labels| - 1], labels[|labels| - 1];
      StreamCarriesTheRest(before);
      RunInvariant(before);
      var s := Exec(before);
      hide PostOk;
      hide IsAnswer;
      assert s.table.Keys == s.posts.Keys;
    }
  }

  // ------------------------------------------------------------ from the body of the POST to its answer

  predicate IsRequest(j: Json) {
    ParseMessage(j).Parsed? && ParseMessage(j).value.Request?
  }

  function RequestsAmong(items: seq<Json>): nat {
    if items == [] then 0 else RequestsAmong(items[..|items| - 1]) + if IsRequest(items[|items| - 1]) then 1 else 0
  }

  lemma {:induction false} RequestsSnoc(messages: seq<Message>, m: Message)
    ensures Requests(messages + [m]) == if m.Request? then Requests(messages) + [m] else Requests(messages)
  {
    assert (messages + [m])[..|messages|] == messages;
  }

  /** The requests of a batch, each in its place. */
  lemma {:induction false} EveryRequestIsSomewhere(items: seq<Json>, k: nat)
    requires BatchOf(items).Some?
    ensures var requests := Requests(BatchOf(items).value.0);
            && |requests| == RequestsAmong(items)
            && (k < |items| && IsRequest(items[k]) ==>
                  var before := RequestsAmong(items[..k]);
                  before < |requests| && requests[before] == ParseMessage(items[k]).value)
    decreases |items|
  {
    hide ParseMessage;
    hide Requests;
    if items == [] {
      assert BatchOf(items).value.0 == [];
      NoRequests();
    } else {
      var front, last := items[..|items| - 1], items[|items| - 1];
      assert front + [last] == items;
      BatchOfSnoc(front, last);
      EveryRequestIsSomewhere(front, k);
      if ParseMessage(last).Parsed? {
        RequestsSnoc(BatchOf(front).value.0, ParseMessage(last).value);
      }
      if k < |front| {
        assert front[..k] == items[..k];
      } else if k == |front| {
        assert items[..k] == front;
      }
    }
  }

  lemma NoRequests()
    ensures Requests([]) == []
  {
  }

  /** A request of a batch is found among those delivered, with the session that its message met. */
  lemma {:induction false} RequestMet(items: seq<Json>, sessions: seq<Session>, k: nat)
    requires BatchOf(items).Some? && |sessions| == |BatchOf(items).value.0| == ParsedAmong(items)
    ensures var requested := Requested(BatchOf(items).value.0, sessions);
            && |requested| == RequestsAmong(items)
            && (k < |items| && IsRequest(items[k]) ==>
                  var (place, met) := (RequestsAmong(items[..k]), ParsedAmong(items[..k]));
                  && place < |requested| && met < |sessions|
                  && requested[place] == (ParseMessage(items[k]).value, sessions[met]))
    decreases |items|
  {
    hide ParseMessage;
    hide BatchOf;
    if items == [] {
      assert sessions == [];
    } else {
      var front, last := items[..|items| - 1], items[|items| - 1];
      assert front + [last] == items;
      BatchOfSnoc(front, last);
      EveryItemIsSomewhere(front, k);
      var messages := BatchOf(items).value.0;
      var n := ParsedAmong(front);
      RequestMet(front, sessions[..n], k);
      SamePrefix(messages, BatchOf(front).value.0, sessions[..n]);
      if ParseMessage(last).Parsed? {
        assert sessions[..|sessions| - 1] == sessions[..n];
      } else {
        assert sessions[..n] == sessions;
      }
      if k < |front| {
        assert front[..k] == items[..k];
      } else if k == |front| {
        assert items[..k] == front;
      }
    }
  }

  lemma {:induction false} SamePrefix(longer: seq<Message>, messages: seq<Message>, sessions: seq<Session>)
    requires |sessions| <= |messages| && messages <= longer
    ensures Requested(longer, sessions) == Requested(messages, sessions)
    decreases |sessions|
  {
    if sessions != [] {
      SamePrefix(longer, messages, sessions[..|sessions| - 1]);
    }
  }

  /** The right answer to a batch, item by item: the null-id errors of the refused items come first,
      then the right answers to the requests, each in its place, and there is nothing else. */
  ghost predicate AnswersItem(body: seq<Json>, items: seq<Json>, sessions: seq<Session>, k: nat)
    requires k < |items|
  {
    var refused := |items| - ParsedAmong(items);
    match ParseMessage(items[k])
    case Invalid(error) =>
      var place := k - ParsedAmong(items[..k]);
      0 <= place < |body| && IsNullIdError(body[place], error)
    case Parsed(m) =>
      m.Request? ==>
        var (place, met) := (refused + RequestsAmong(items[..k]), ParsedAmong(items[..k]));
        0 <= place < |body| && met < |sessions| && IsReplyTo(body[place], m, sessions[met])
    case Raised => false
  }

  lemma {:induction false} AnswersEveryItem(captured: seq<Json>, items: seq<Json>, frame: Frame, sessions: seq<Session>, k: nat)
    requires ParseFrame(Some(Arr(items))) == Parsed(frame) && |sessions| == |frame.messages|
    requires Answers(captured, frame, |frame.itemErrors|, sessions)
    ensures |captured| == |items| - ParsedAmong(items) + RequestsAmong(items)
    ensures k < |items| ==> AnswersItem(captured, items, sessions, k)
  {
    hide ParseMessage;
    hide IsReplyTo;
    hide IsNullIdError;
    hide BatchOf;
    hide Requested;
    hide ParsedAmong;
    hide RequestsAmong;
    assert BatchOf(items) == Some((frame.messages, frame.itemErrors));
    hide ParseFrame;
    EveryItemIsSomewhere(items, k);
    RequestMet(items, sessions, k);
  }

  /** A batch POST: the 200 body holds the error or the right response of every item in its place and
      nothing else, and 202 is the answer exactly when no item is refused and none is a request. */
  lemma {:induction false} EveryBatchAnswered(labels: seq<Label>, i: nat, items: seq<Json>, k: nat)
    requires i < |Exec(labels).answers| && ParseFrame(Some(Arr(items))) == Parsed(Exec(labels).answers[i].frame)
    ensures var (done, answers) := (Exec(labels).answers[i], |items| - ParsedAmong(items) + RequestsAmong(items));
            && (done.answer == Accepted <==> answers == 0)
            && (done.answer.Ok200? ==>
                  && done.answer.body.Arr? && |done.answer.body.items| == answers
                  && (k < |items| ==> AnswersItem(done.answer.body.items, items, done.sessions, k)))
  {
    hide ParseMessage;
    hide Answers;
    hide AnswersItem;
    hide Exec;
    hide Requests;
    EveryPostAnswered(labels, i);
    var Done(frame, sessions, answer) := Exec(labels).answers[i];
    EveryItemIsSomewhere(items, k);
    EveryRequestIsSomewhere(items, k);
    assert BatchOf(items) == Some((frame.messages, frame.itemErrors)) && frame.wasBatch;
    hide BatchOf;
    if answer.Ok200? {
      var captured :| captured != [] && answer.body == BodyOf(captured, frame.wasBatch)
        && Answers(captured, frame, |frame.itemErrors|, sessions);
      AnswersEveryItem(captured, items, frame, sessions, k);
    }
  }

  /** A POST of one message. */
  lemma {:induction false} EverySingleAnswered(labels: seq<Label>, i: nat, j: Json)
    requires i < |Exec(labels).answers| && !j.Arr? && ParseFrame(Some(j)) == Parsed(Exec(labels).answers[i].frame)
    ensures var Done(_, sessions, answer) := Exec(labels).answers[i];
            && ParseMessage(j).Parsed? && |sessions| == 1
            && if IsRequest(j) then answer.Ok200? && IsReplyTo(answer.body, ParseMessage(j).value, sessions[0])
               else answer == Accepted
  {
    hide ParseMessage;
    hide Exec;
    hide IsReplyTo;
    SingleAnswered(labels, i, ParseMessage(j).value);
  }
}
