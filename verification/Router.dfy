/** The request router: exact handlers first, then the longest matching wildcard prefix. */
module Router {
  import opened JsonValues
  import opened Messages
  import opened Wrappers

  /** What a handler does with the params of a request. */
  datatype HandlerResult =
    | Returned(value: Json)
    | Failed(error: RpcError)
    // The library's own exception, which carries an error.
    | Threw(error: RpcError)
    // Any other exception.
    | Crashed(what: string)

  type Handler = Option<Json> -> HandlerResult

  type Patterns<+H> = seq<(string, H)>

  predicate Matches(pattern: string, name: string) {
    pattern <= name
  }

  /** A prefix matches itself and everything that continues it, and nothing else. */
  lemma MatchesContinuations(pattern: string, name: string, rest: string)
    ensures Matches(pattern, pattern + rest)
    ensures Matches(pattern, name) ==> |pattern| <= |name| && name == pattern + name[|pattern|..]
  {
  }

  /** Entry `k` has the longest matching prefix, and is the first with that length. */
  ghost predicate IsBest<H>(patterns: Patterns<H>, name: string, k: nat) {
    && k < |patterns| && Matches(patterns[k].0, name)
    && (forall i :: 0 <= i < |patterns| && Matches(patterns[i].0, name) ==> |patterns[i].0| <= |patterns[k].0|)
    && (forall i :: 0 <= i < k && Matches(patterns[i].0, name) ==> |patterns[i].0| < |patterns[k].0|)
  }

  lemma BestIsUnique<H>(patterns: Patterns<H>, name: string, j: nat, k: nat)
    requires IsBest(patterns, name, j) && IsBest(patterns, name, k)
    ensures j == k
  {
    assert |patterns[j].0| == |patterns[k].0|;
  }

  method MatchWildcard<H>(patterns: Patterns<H>, name: string) returns (best: Option<nat>)
    ensures best.Some? ==> IsBest(patterns, name, best.value)
    ensures best.None? ==> forall i :: 0 <= i < |patterns| ==> !Matches(patterns[i].0, name)
  {
    best := None;
    for i := 0 to |patterns|
      invariant best.Some? ==> best.value < i && IsBest(patterns[..i], name, best.value)
      invariant best.None? ==> forall j :: 0 <= j < i ==> !Matches(patterns[j].0, name)
    {
      if Matches(patterns[i].0, name) && (best.None? || |patterns[i].0| > |patterns[best.value].0|) {
        best := Some(i);
      }
    }
    assert patterns[..|patterns|] == patterns;
  }

  /** The first longest match as a function: compare the best of the rest with the head. */
  function BestWildcard<H>(patterns: Patterns<H>, name: string): (best: Option<nat>)
    ensures best.Some? ==> IsBest(patterns, name, best.value)
    ensures best.None? ==> forall i :: 0 <= i < |patterns| ==> !Matches(patterns[i].0, name)
  {
    if patterns == [] then None
    else
      var head := patterns[0].0;
      match BestWildcard(patterns[1..], name)
      case None => if Matches(head, name) then Some(0) else None
      case Some(k) => if Matches(head, name) && |head| >= |patterns[k + 1].0| then Some(0) else Some(k + 1)
  }

  /** The handlers registered, by exact name and by prefix. */
  datatype Handlers = Handlers(exact: map<string, Handler>, wildcards: Patterns<Handler>)

  function FindHandler(h: Handlers, name: string): Option<Handler> {
    if name in h.exact then Some(h.exact[name])
    else
      match BestWildcard(h.wildcards, name)
      case None => None
      case Some(k) => Some(h.wildcards[k].1)
  }

  /** `dispatch` of a request: always one response, with the request's id. */
  function Dispatched(h: Handlers, request: Message): (response: Message)
    requires request.Request?
    ensures response.Response? && response.to == Some(request.id) && response.result.Some? != response.error.Some?
  {
    match FindHandler(h, request.name)
    case None => Response(Some(request.id), None, Some(RpcError(METHOD_NOT_FOUND, "Method not found: " + request.name, None)))
    case Some(handler) =>
      match handler(request.params)
      case Returned(value) => Response(Some(request.id), Some(value), None)
      case Failed(error) => Response(Some(request.id), None, Some(error))
      case Threw(error) => Response(Some(request.id), None, Some(error))
      case Crashed(what) => Response(Some(request.id), None, Some(RpcError(INTERNAL_ERROR, what, None)))
  }

  /** The handler to answer with: the exact one, or that of the best prefix. */
  ghost predicate IsHandlerFor(h: Handlers, name: string, handler: Handler) {
    if name in h.exact then handler == h.exact[name]
    else exists k: nat :: IsBest(h.wildcards, name, k) && handler == h.wildcards[k].1
  }

  ghost predicate NobodyHandles(h: Handlers, name: string) {
    name !in h.exact && forall i :: 0 <= i < |h.wildcards| ==> !Matches(h.wildcards[i].0, name)
  }

  /** The response says what the handler did: its value, its error, or -32603. */
  ghost predicate Conveys(response: Message, r: HandlerResult)
    requires response.Response?
  {
    match r
    case Returned(value) => response.result == Some(value) && response.error == None
    case Failed(error) => response.result == None && response.error == Some(error)
    case Threw(error) => response.result == None && response.error == Some(error)
    case Crashed(what) => response.result == None && response.error == Some(RpcError(-32603, what, None))
  }

  /** There is a handler, and then only one, or nobody handles the method. */
  lemma HandlerOrNobody(h: Handlers, name: string)
    ensures NobodyHandles(h, name) <==> !exists handler :: IsHandlerFor(h, name, handler)
    ensures forall f, g :: IsHandlerFor(h, name, f) && IsHandlerFor(h, name, g) ==> f == g
  {
    if name !in h.exact {
      if BestWildcard(h.wildcards, name).Some? {
        var k := BestWildcard(h.wildcards, name).value;
        assert IsHandlerFor(h, name, h.wildcards[k].1);
        assert Matches(h.wildcards[k].0, name);
      }
      forall j: nat, k: nat | IsBest(h.wildcards, name, j) && IsBest(h.wildcards, name, k)
        ensures j == k
      {
        BestIsUnique(h.wildcards, name, j, k);
      }
    } else {
      assert IsHandlerFor(h, name, h.exact[name]);
    }
  }

  /** A dispatched request is answered, under its id, with what its handler did to its params; a method
      that nobody handles with -32601. */
  lemma DispatchedConveys(h: Handlers, request: Message, handler: Handler)
    requires request.Request?
    ensures Dispatched(h, request).to == Some(request.id)
    ensures IsHandlerFor(h, request.name, handler) ==> Conveys(Dispatched(h, request), handler(request.params))
    ensures NobodyHandles(h, request.name) ==>
              var r := Dispatched(h, request); r.result == None && r.error.Some? && r.error.value.code == -32601
  {
    if IsHandlerFor(h, request.name, handler) && request.name !in h.exact {
      var k: nat :| IsBest(h.wildcards, request.name, k) && handler == h.wildcards[k].1;
      MostSpecificHandlerAnswers(h, request.name, k);
    }
  }

  /** The exact handler wins over every wildcard, and a longer prefix over a shorter one. */
  lemma MostSpecificHandlerAnswers(h: Handlers, name: string, k: nat)
    requires IsBest(h.wildcards, name, k)
    ensures FindHandler(h, name) == Some(if name in h.exact then h.exact[name] else h.wildcards[k].1)
  {
    if name !in h.exact {
      assert Matches(h.wildcards[k].0, name);
      BestIsUnique(h.wildcards, name, k, BestWildcard(h.wildcards, name).value);
    }
  }
}
