/** Request ids and progress tokens: integers or strings. */
module Identifiers {
  datatype RequestId = Number(n: int) | Text(s: string)
}

/** JSON-RPC 2.0 messages and their JSON form. */
module Messages {
  import opened Identifiers
  import opened JsonValues
  import opened Text
  import opened Wrappers

  datatype RpcError = RpcError(code: int, message: string, data: Option<Json>)

  datatype Message =
    | Request(id: RequestId, name: string, params: Option<Json>)
    | Notification(name: string, params: Option<Json>)
    | Response(to: Option<RequestId>, result: Option<Json>, error: Option<RpcError>)

  const PARSE_ERROR := -32700
  const INVALID_REQUEST := -32600
  const METHOD_NOT_FOUND := -32601
  const INTERNAL_ERROR := -32603

  const VERSION: string := "2.0"

  // ------------------------------------------------------------ ids

  function IdToJson(id: RequestId): Json {
    match id
    case Number(n) => Int(n)
    case Text(s) => Str(s)
  }

  /** A JSON integer becomes a signed 64-bit number. */
  function IdFromJson(j: Json): Option<RequestId> {
    match j
    case Int(n) => Some(Number(WrapTo(n, TWO_TO_64)))
    case Str(s) => Some(Text(s))
    case _ => None
  }

  /** An id is echoed as it was written exactly when, being an integer, it fits 64 signed bits. */
  lemma IdEchoed(j: Json)
    requires IdFromJson(j).Some?
    ensures IdToJson(IdFromJson(j).value) == j <==> (j.Int? ==> -(TWO_TO_64 / 2) <= j.n < TWO_TO_64 / 2)
  {
  }

  // ------------------------------------------------------------ writing

  function WithField(fields: map<string, Json>, name: string, value: Option<Json>): map<string, Json> {
    if value.Some? then fields[name := value.value] else fields
  }

  function ErrorToJson(e: RpcError): Json {
    Obj(WithField(map["code" := Int(e.code), "message" := Str(e.message)], "data", e.data))
  }

  function ToJson(m: Message): Json {
    match m
    case Request(id, name, params) =>
      Obj(WithField(map["jsonrpc" := Str(VERSION), "id" := IdToJson(id), "method" := Str(name)], "params", params))
    case Notification(name, params) =>
      Obj(WithField(map["jsonrpc" := Str(VERSION), "method" := Str(name)], "params", params))
    case Response(to, result, error) =>
      var head := map["jsonrpc" := Str(VERSION), "id" := if to.Some? then IdToJson(to.value) else Null];
      Obj(if error.Some? then head["error" := ErrorToJson(error.value)]
          else head["result" := if result.Some? then result.value else Null])
  }

  // ------------------------------------------------------------ parsing

  /** `Raised` stands for the library's exception on a conversion the parser does not guard. */
  datatype Parse<+T> = Parsed(value: T) | Invalid(error: RpcError) | Raised

  function InvalidRequest(what: string): RpcError {
    RpcError(INVALID_REQUEST, what, None)
  }

  /** A field that is there and not null. */
  function Present(fields: map<string, Json>, name: string): Option<Json> {
    if name in fields && !fields[name].Null? then Some(fields[name]) else None
  }

  function ErrorCode(j: Json): Option<int> {
    match j
    case Int(n) => Some(WrapTo(n, TWO_TO_32))
    case Float(r) => Some(if r >= 0.0 then r.Floor else -((-r).Floor))
    case Bool(b) => Some(if b then 1 else 0)
    case _ => None
  }

  function ErrorFromJson(fields: map<string, Json>): Option<RpcError>
    requires "code" in fields && "message" in fields
  {
    match (ErrorCode(fields["code"]), fields["message"])
    case (Some(code), Str(message)) => Some(RpcError(code, message, Present(fields, "data")))
    case _ => None
  }

  function ParseCall(fields: map<string, Json>): Parse<Message>
    requires "method" in fields
  {
    var params := Present(fields, "params");
    if !fields["method"].Str? then Invalid(InvalidRequest("method must be a string"))
    else if params.Some? && !params.value.Obj? && !params.value.Arr? then
      Invalid(InvalidRequest("params must be an object or array"))
    else if "id" !in fields then Parsed(Notification(fields["method"].s, params))
    else
      match IdFromJson(fields["id"])
      case None => Invalid(InvalidRequest("request id must be a string or integer"))
      case Some(id) => Parsed(Request(id, fields["method"].s, params))
  }

  function ParseReply(fields: map<string, Json>): Parse<Message> {
    if ("result" in fields) == ("error" in fields) then
      Invalid(InvalidRequest("response must contain exactly one of result/error"))
    else if "id" !in fields then Invalid(InvalidRequest("response is missing id"))
    else
      var to := IdFromJson(fields["id"]);
      if to.None? && !fields["id"].Null? then
        Invalid(InvalidRequest("response id must be a string, integer, or null"))
      else if "result" in fields then Parsed(Response(to, Some(fields["result"]), None))
      else if !fields["error"].Obj? || "code" !in fields["error"].fields || "message" !in fields["error"].fields then
        Invalid(InvalidRequest("malformed error object"))
      else
        match ErrorFromJson(fields["error"].fields)
        case None => Raised
        case Some(error) => Parsed(Response(to, None, Some(error)))
  }

  function ParseMessage(j: Json): Parse<Message> {
    if !j.Obj? then Invalid(InvalidRequest("message is not a JSON object"))
    else if "jsonrpc" !in j.fields || j.fields["jsonrpc"] != Str(VERSION) then
      Invalid(InvalidRequest("missing or invalid jsonrpc version"))
    else if "method" in j.fields then ParseCall(j.fields)
    else ParseReply(j.fields)
  }

  // ------------------------------------------------------------ the round trip

  /** The ranges of the fields' machine types. */
  predicate FitsTypes(m: Message) {
    match m
    case Request(id, _, _) => IdFits(id)
    case Notification(_, _) => true
    case Response(to, _, error) =>
      (to.Some? ==> IdFits(to.value)) && (error.Some? ==> -(TWO_TO_32 / 2) <= error.value.code < TWO_TO_32 / 2)
  }

  predicate IdFits(id: RequestId) {
    id.Number? ==> -(TWO_TO_64 / 2) <= id.n < TWO_TO_64 / 2
  }

  predicate ParamsOk(params: Option<Json>) {
    params.Some? ==> params.value.Obj? || params.value.Arr?
  }

  predicate WellFormed(m: Message) {
    match m
    case Request(_, _, params) => ParamsOk(params)
    case Notification(_, params) => ParamsOk(params)
    case Response(_, result, error) =>
      result.Some? != error.Some? && (error.Some? ==> error.value.data != Some(Null))
  }

  lemma {:induction false} CallReadBack(m: Message)
    requires !m.Response? && FitsTypes(m)
    ensures ParseMessage(ToJson(m)) == Parsed(m) <==> WellFormed(m)
  {
    assert ParseMessage(ToJson(m)) == ParseCall(ToJson(m).fields);
  }

  lemma {:induction false} ErrorReadBack(e: RpcError)
    requires -(TWO_TO_32 / 2) <= e.code < TWO_TO_32 / 2
    ensures var j := ErrorToJson(e);
            && j.Obj? && "code" in j.fields && "message" in j.fields
            && ErrorFromJson(j.fields) == Some(e.(data := if e.data == Some(Null) then None else e.data))
  {
  }

  lemma {:induction false} ResponseReadBack(m: Message)
    requires m.Response? && FitsTypes(m)
    ensures ParseMessage(ToJson(m)) == Parsed(m) <==> WellFormed(m)
  {
    if m.error.Some? {
      ErrorReadBack(m.error.value);
    }
    hide ErrorToJson;
    hide ErrorFromJson;
    assert ParseMessage(ToJson(m)) == ParseReply(ToJson(m).fields);
  }

  /** A written message is read back exactly when its params are structured, it has one of result
      and error, and its error data is not an explicit null. */
  lemma {:induction false} MessageRoundTrip(m: Message)
    requires FitsTypes(m)
    ensures ParseMessage(ToJson(m)) == Parsed(m) <==> WellFormed(m)
  {
    hide ParseMessage;
    hide ToJson;
    if m.Response? {
      ResponseReadBack(m);
    } else {
      CallReadBack(m);
    }
  }

  predicate HasVersion(j: Json) {
    j.Obj? && "jsonrpc" in j.fields && j.fields["jsonrpc"] == Str("2.0")
  }

  /** Missing, null, an object or an array. */
  predicate ParamsFit(fields: map<string, Json>) {
    "params" in fields ==> fields["params"].Null? || fields["params"].Obj? || fields["params"].Arr?
  }

  /** A call is taken exactly when it has the version, a string method and fitting params, as a
      notification if it has no id and as a request if its id is an integer or a string. */
  lemma {:induction false} CallTakenIff(j: Json)
    requires j.Obj? && "method" in j.fields
    ensures var (p, good) := (ParseMessage(j), HasVersion(j) && j.fields["method"].Str? && ParamsFit(j.fields));
            && (p.Parsed? <==> good && ("id" in j.fields ==> j.fields["id"].Int? || j.fields["id"].Str?))
            && (p.Parsed? ==>
                  var params := if "params" in j.fields && !j.fields["params"].Null? then Some(j.fields["params"]) else None;
                  p.value == if "id" in j.fields then Request(IdFromJson(j.fields["id"]).value, j.fields["method"].s, params)
                             else Notification(j.fields["method"].s, params))
            && (!p.Parsed? ==> p.Invalid? && p.error.code == -32600)
  {
    assert ParseMessage(j).Parsed? ==> ParseMessage(j) == ParseCall(j.fields);
  }

  /** A response is taken exactly when it has the version, one of result and error, an id that is an
      integer, a string or null, and in the error a code and a message that can be read; anything else is an
      invalid request, or raises. */
  lemma {:induction false} ResponseTakenIff(j: Json)
    requires !j.Obj? || "method" !in j.fields
    ensures var p := ParseMessage(j);
            && (p.Parsed? <==>
                  && HasVersion(j) && ("result" in j.fields <==> "error" !in j.fields)
                  && "id" in j.fields && (j.fields["id"].Int? || j.fields["id"].Str? || j.fields["id"].Null?)
                  && ("error" in j.fields ==>
                        var e := j.fields["error"];
                        && e.Obj? && "code" in e.fields && "message" in e.fields
                        && ErrorCode(e.fields["code"]).Some? && e.fields["message"].Str?))
            && (p.Invalid? ==> p.error.code == -32600)
            && (p.Parsed? ==> p.value.Response? && p.value.to == IdFromJson(j.fields["id"]))
  {
    if HasVersion(j) {
      assert ParseMessage(j) == ParseReply(j.fields);
    }
  }

  /** Which values an error code is read from, and as what. */
  lemma ErrorCodeRead(n: int, b: bool)
    ensures -0x8000_0000 <= n < 0x8000_0000 ==> ErrorCode(Int(n)) == Some(n)
    ensures ErrorCode(Bool(b)) == Some(if b then 1 else 0)
    ensures ErrorCode(Float(n as real + 0.5)) == Some(if n >= 0 then n else n + 1)
    ensures ErrorCode(Null) == None && ErrorCode(Str("")) == None && ErrorCode(Arr([])) == None && ErrorCode(Obj(map[])) == None
  {
  }

  /** The wire form of the three kinds of message and of an error: these fields and no others. */
  lemma {:induction false} WireForm(m: Message, e: RpcError)
    ensures ToJson(m).Obj? && ErrorToJson(e).Obj?
    ensures var fields := ToJson(m).fields;
            && "jsonrpc" in fields && fields["jsonrpc"] == Str("2.0")
            && ("method" in fields <==> !m.Response?) && ("id" in fields <==> !m.Notification?)
            && ("params" in fields <==> !m.Response? && m.params.Some?)
            && ("error" in fields <==> m.Response? && m.error.Some?)
            && ("result" in fields <==> m.Response? && m.error.None?)
            && fields.Keys <= {"jsonrpc", "method", "id", "params", "error", "result"}
    ensures ErrorToJson(e).fields.Keys == {"code", "message"} + if e.data.Some? then {"data"} else {}
    ensures ErrorToJson(e).fields["code"] == Int(e.code) && ErrorToJson(e).fields["message"] == Str(e.message)
  {
  }

  /** Parsing raises an exception exactly for a response whose error object has a code that is no
      number or boolean, or a message that is no string. */
  lemma ParseRaisesIff(j: Json)
    ensures ParseMessage(j).Raised? <==>
            && j.Obj? && "jsonrpc" in j.fields && j.fields["jsonrpc"] == Str(VERSION)
            && "method" !in j.fields && "result" !in j.fields && "error" in j.fields
            && "id" in j.fields && (j.fields["id"].Int? || j.fields["id"].Str? || j.fields["id"].Null?)
            && j.fields["error"].Obj? && "code" in j.fields["error"].fields && "message" in j.fields["error"].fields
            && !(ErrorCode(j.fields["error"].fields["code"]).Some? && j.fields["error"].fields["message"].Str?)
  {
  }

  /** A response whose error code is a string. */
  lemma WrongCodeRaises()
    ensures ParseMessage(Obj(map["jsonrpc" := Str(VERSION), "id" := Null,
                                 "error" := Obj(map["code" := Str("x"), "message" := Str("")])])) == Raised
  {
  }

  // ------------------------------------------------------------ frames

  datatype Frame = Frame(messages: seq<Message>, itemErrors: seq<RpcError>, wasBatch: bool)

  /** The messages and the errors of a batch, each in order; None when parsing an item raises. */
  function BatchOf(items: seq<Json>): Option<(seq<Message>, seq<RpcError>)> {
    if items == [] then Some(([], []))
    else
      match (ParseMessage(items[0]), BatchOf(items[1..]))
      case (Parsed(m), Some((messages, errors))) => Some(([m] + messages, errors))
      case (Invalid(e), Some((messages, errors))) => Some((messages, [e] + errors))
      case _ => None
  }

  /** One wire frame; None stands for text that is not JSON. */
  function ParseFrame(j: Option<Json>): Parse<Frame> {
    match j
    case None => Invalid(RpcError(PARSE_ERROR, "invalid JSON", None))
    case Some(Arr(items)) =>
      if items == [] then Invalid(InvalidRequest("batch must not be empty"))
      else (match BatchOf(items) case None => Raised case Some((messages, errors)) => Parsed(Frame(messages, errors, true)))
    case Some(single) =>
      match ParseMessage(single)
      case Raised => Raised
      case Invalid(e) => Invalid(e)
      case Parsed(m) => Parsed(Frame([m], [], false))
  }

  /** Text that is not JSON is a parse error, an empty batch an invalid request. */
  lemma FrameRefused()
    ensures ParseFrame(None).Invalid? && ParseFrame(None).error.code == -32700
    ensures ParseFrame(Some(Arr([]))).Invalid? && ParseFrame(Some(Arr([]))).error.code == -32600
  {
  }

  /** A frame that is no array is taken exactly when its one message is, and keeps its error or exception. */
  lemma SingleTaken(j: Json)
    requires !j.Arr?
    ensures match ParseMessage(j)
            case Parsed(m) => ParseFrame(Some(j)) == Parsed(Frame([m], [], false))
            case Invalid(e) => ParseFrame(Some(j)) == Invalid(e)
            case Raised => ParseFrame(Some(j)) == Raised
  {
  }

  /** A batch is taken unless an item raises, and is known for one. */
  lemma BatchTaken(items: seq<Json>)
    requires items != []
    ensures ParseFrame(Some(Arr(items))).Parsed? <==> BatchOf(items).Some?
    ensures ParseFrame(Some(Arr(items))).Parsed? ==> ParseFrame(Some(Arr(items))).value.wasBatch
    ensures !ParseFrame(Some(Arr(items))).Parsed? ==> ParseFrame(Some(Arr(items))) == Raised
  {
  }

  function BatchSnoc(before: Option<(seq<Message>, seq<RpcError>)>, item: Parse<Message>): Option<(seq<Message>, seq<RpcError>)> {
    match (before, item)
    case (Some((messages, errors)), Parsed(m)) => Some((messages + [m], errors))
    case (Some((messages, errors)), Invalid(e)) => Some((messages, errors + [e]))
    case _ => None
  }

  lemma {:induction false} BatchOfSnoc(items: seq<Json>, item: Json)
    ensures BatchOf(items + [item]) == BatchSnoc(BatchOf(items), ParseMessage(item))
    decreases |items|
  {
    hide ParseMessage;
    if items == [] {
      assert items + [item] == [item] && [item][1..] == [];
      match ParseMessage(item)
      case Parsed(m) => assert [m] + [] == [] + [m];
      case Invalid(e) => assert [e] + [] == [] + [e];
      case Raised =>
    } else {
      assert (items + [item])[1..] == items[1..] + [item];
      BatchOfSnoc(items[1..], item);
      match (ParseMessage(items[0]), BatchOf(items[1..]), ParseMessage(item))
      case (Parsed(m), Some((messages, _)), Parsed(m')) => assert [m] + (messages + [m']) == ([m] + messages) + [m'];
      case (Invalid(e), Some((_, errors)), Invalid(e')) => assert [e] + (errors + [e']) == ([e] + errors) + [e'];
      case _ =>
    }
  }

  /** A batch has a result exactly when none of its items raises. */
  lemma {:induction false} BatchHasResultIff(items: seq<Json>)
    ensures BatchOf(items).Some? <==> forall i :: 0 <= i < |items| ==> !ParseMessage(items[i]).Raised?
    decreases |items|
  {
    hide ParseMessage;
    if items != [] {
      BatchHasResultIff(items[1..]);
      if exists i :: 0 <= i < |items| && ParseMessage(items[i]).Raised? {
        var i :| 0 <= i < |items| && ParseMessage(items[i]).Raised?;
        assert i > 0 ==> items[1..][i - 1] == items[i];
      }
      assert forall i :: 0 <= i < |items[1..]| ==> items[1..][i] == items[i + 1];
    }
  }

  function ParsedAmong(items: seq<Json>): nat {
    if items == [] then 0 else ParsedAmong(items[..|items| - 1]) + if ParseMessage(items[|items| - 1]).Parsed? then 1 else 0
  }

  /** Every item of a batch is in its place: the messages are the items that parse, the errors are
      the refused ones, each in the order of the batch, and nothing else is in either list. */
  lemma {:induction false} EveryItemIsSomewhere(items: seq<Json>, i: nat)
    requires BatchOf(items).Some?
    ensures var (messages, errors) := BatchOf(items).value;
            && |messages| == ParsedAmong(items) && |messages| + |errors| == |items|
            && (i < |items| ==>
                  var before := ParsedAmong(items[..i]);
                  match ParseMessage(items[i])
                  case Parsed(m) => before < |messages| && messages[before] == m
                  case Invalid(e) => 0 <= i - before < |errors| && errors[i - before] == e
                  case Raised => false)
    decreases |items|
  {
    hide ParseMessage;
    if items != [] {
      var front, last := items[..|items| - 1], items[|items| - 1];
      assert front + [last] == items;
      BatchOfSnoc(front, last);
      EveryItemIsSomewhere(front, i);
      if i < |front| {
        assert front[..i] == items[..i];
      } else if i == |front| {
        assert items[..i] == front;
      }
    }
  }

  method ParseBatch(items: seq<Json>) returns (batch: Option<(seq<Message>, seq<RpcError>)>)
    ensures batch == BatchOf(items)
  {
    hide ParseMessage;
    var messages: seq<Message>, errors: seq<RpcError> := [], [];
    for i := 0 to |items|
      invariant BatchOf(items[..i]) == Some((messages, errors))
    {
      BatchOfSnoc(items[..i], items[i]);
      assert items[..i + 1] == items[..i] + [items[i]];
      match ParseMessage(items[i])
      case Parsed(m) => messages := messages + [m];
      case Invalid(e) => errors := errors + [e];
      case Raised =>
        RaisedStays(items, i + 1);
        return None;
    }
    assert items[..|items|] == items;
    batch := Some((messages, errors));
  }

  lemma {:induction false} RaisedStays(items: seq<Json>, n: nat)
    requires n <= |items| && BatchOf(items[..n]) == None
    ensures BatchOf(items) == None
    decreases |items| - n
  {
    hide ParseMessage;
    if n < |items| {
      BatchOfSnoc(items[..n], items[n]);
      assert items[..n + 1] == items[..n] + [items[n]];
      RaisedStays(items, n + 1);
    } else {
      assert items[..n] == items;
    }
  }
}
