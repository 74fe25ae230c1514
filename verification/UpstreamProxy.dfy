/** The loop that reads requests from standard input and forwards them to an upstream server,
    initializing it first when the client has not
    (rust/src/gateways/streamable_http_to_stdio.rs, rust/src/gateways/sse_to_stdio.rs). The
    upstream is an arbitrary sequence of replies; what the gateway sends and prints is a
    trace, and every promise is about that trace. */
module UpstreamProxy {
  import opened Json
  import opened Decimal
  import opened Text
  import opened Reliability

  // ---- messages ----

  predicate IsRequest(m: Value) {
    m.Get("method").Some? && m.Get("id").Some?
  }

  predicate IsInitialize(m: Value) {
    m.Get("method") == Some(Str("initialize"))
  }

  function InitializeRequest(id: string, protocolVersion: string, clientVersion: string): Value {
    Obj(map[
      "jsonrpc" := Str("2.0"),
      "id" := Str(id),
      "method" := Str("initialize"),
      "params" := Obj(map[
        "protocolVersion" := Str(protocolVersion),
        "capabilities" := Obj(map["roots" := Obj(map["listChanged" := Bool(true)]), "sampling" := Obj(map[])]),
        "clientInfo" := Obj(map["name" := Str("mcpway"), "version" := Str(clientVersion)])])])
  }

  /** A complete initialize request: with an id, a protocol version and the client's name. */
  predicate IsOwnInitialize(m: Value) {
    && m.Get("jsonrpc") == Some(Str("2.0")) && m.Get("method") == Some(Str("initialize"))
    && m.Get("id").Some? && m.Get("id").value.Str? && m.Get("params").Some?
    && var params := m.Get("params").value;
       && params.Get("protocolVersion").Some? && params.Get("protocolVersion").value.Str?
       && params.Get("capabilities").Some? && params.Get("clientInfo").Some?
       && params.Get("clientInfo").value.Get("name") == Some(Str("mcpway"))
  }

  lemma OwnInitializeIs(id: string, protocolVersion: string, clientVersion: string)
    ensures IsOwnInitialize(InitializeRequest(id, protocolVersion, clientVersion))
    ensures InitializeRequest(id, protocolVersion, clientVersion).Get("id") == Some(Str(id))
  {
  }

  const INITIALIZED := Obj(map["jsonrpc" := Str("2.0"), "method" := Str("notifications/initialized")])

  // ---- replies ----

  datatype Body = Blank | Garbage(error: string) | Document(json: Value)

  /** What came back for one POST: a transport error, or a response with its session header,
      whether its status means success, and its body. */
  datatype Reply =
    | NoReply(error: string)
    | Response(session: Option<string>, success: bool, status: string, body: Body)

  datatype Exchange = Exchange(duration: nat, reply: Reply)

  function ParsePayload(r: Reply): Result<Value> {
    match r
    case NoReply(error) => Err(error)
    case Response(_, success, status, Blank) =>
      if success then Err("Empty response") else Err("Request failed with status " + status)
    case Response(_, _, _, Garbage(error)) => Err(error)
    case Response(_, success, status, Document(json)) =>
      if json.Get("error").Some? then Ok(Obj(map["error" := json.Get("error").value]))
      else if !success then Err("Request failed with status " + status)
      else if json.Get("result").Some? then Ok(Obj(map["result" := json.Get("result").value]))
      else Ok(Obj(map["result" := json]))
  }

  function ParseAcknowledgement(r: Reply): Result<Value> {
    match r
    case NoReply(error) => Err(error)
    case Response(_, success, status, _) =>
      if success then Ok(Null) else Err("Initialized notification failed with status " + status)
  }

  function ErrorPayload(code: int, message: string): Value {
    Obj(map["error" := Obj(map["code" := Int(code), "message" := Str(message)])])
  }

  function Settle(r: Result<Value>): Value {
    match r
    case Ok(payload) => payload
    case Err(error) => ErrorPayload(-32000, error)
  }

  /** A payload holds an error or a result, and not both. */
  predicate IsPayload(p: Value) {
    p.Get("error").Some? != p.Get("result").Some?
  }

  function CodePrefix(code: int): string {
    "MCP error " + Decimal.Print(code) + ":"
  }

  function NormalizeErrorMessage(code: int, message: string): string {
    if CodePrefix(code) <= message then Trim(message[|CodePrefix(code)|..]) else message
  }

  function WrapError(error: Value): Value {
    match error.Get("code")
    case Some(Int(code)) =>
      if I64_MIN <= code <= I64_MAX then
        var message := match error.Get("message") case Some(Str(s)) => s case _ => "Internal error";
        Obj(map["code" := Int(code), "message" := Str(NormalizeErrorMessage(code, message))])
      else error
    case _ => error
  }

  function WrapResponse(req: Value, payload: Value): Value {
    var jsonrpc := match req.Get("jsonrpc") case Some(v) => v case None => Str("2.0");
    var id := match req.Get("id") case Some(v) => v case None => Null;
    var base := map["jsonrpc" := jsonrpc, "id" := id];
    if payload.Get("error").Some? then Obj(base["error" := WrapError(payload.Get("error").value)])
    else if payload.Get("result").Some? then Obj(base["result" := payload.Get("result").value])
    else Obj(base)
  }

  /** A well-formed response to a request: its own id and version, and exactly one of result
      and error (section 5 of JSON-RPC 2.0). */
  ghost predicate Responds(req: Value, line: Value) {
    && line.Obj? && line.Get("id") == req.Get("id")
    && line.Get("jsonrpc") == Some(match req.Get("jsonrpc") case Some(v) => v case None => Str("2.0"))
    && (line.Get("error").Some? != line.Get("result").Some?)
    && line.fields.Keys <= {"jsonrpc", "id", "error", "result"}
  }

  lemma WrapResponds(req: Value, payload: Value)
    requires IsRequest(req) && IsPayload(payload)
    ensures Responds(req, WrapResponse(req, payload))
    ensures WrapResponse(req, payload).Get("result") == payload.Get("result")
  {
  }

  /** A message that already carries its code as a prefix is printed without it, and without
      the white space that then surrounds the rest. */
  lemma PrefixIsRemoved(code: int, rest: string) returns (lead: string, tail: string)
    ensures var text := NormalizeErrorMessage(code, CodePrefix(code) + rest);
            rest == lead + text + tail && AllSpace(lead) && AllSpace(tail) && Trimmed(text)
  {
    var message := CodePrefix(code) + rest;
    assert message[|CodePrefix(code)|..] == rest;
    lead, tail := TrimIs(rest);
  }

  /** A message is changed if and only if it has that prefix. */
  lemma MessageChangesIff(code: int, message: string)
    ensures NormalizeErrorMessage(code, message) != message <==> CodePrefix(code) <= message
  {
    if CodePrefix(code) <= message {
      var lead, tail := TrimIs(message[|CodePrefix(code)|..]);
    }
  }

  // ---- what the client is told about a reply ----

  /** The error shown has that code, and that text without the prefix the text may repeat. */
  ghost predicate ShowsText(shown: Value, code: int, text: string) {
    && shown.Obj? && shown.fields.Keys == {"code", "message"} && shown.Get("code") == Some(Int(code))
    && var prefix := "MCP error " + Decimal.Print(code) + ":";
       if prefix <= text then
         exists lead, message, tail ::
           IsRest(text[|prefix|..], lead, message, tail) && shown.Get("message") == Some(Str(message))
       else shown.Get("message") == Some(Str(text))
  }

  /** The message is what is left between the white space at both ends. */
  predicate IsRest(rest: string, lead: string, message: string, tail: string) {
    rest == lead + message + tail && AllSpace(lead) && AllSpace(tail) && Trimmed(message)
  }

  /** The upstream's error is shown with its 64-bit code and its message, or as it is. */
  ghost predicate ShowsError(shown: Value, error: Value) {
    match error.Get("code")
    case Some(Int(code)) =>
      if -0x8000_0000_0000_0000 <= code <= 0x7fff_ffff_ffff_ffff then
        match error.Get("message")
        case Some(Str(text)) => ShowsText(shown, code, text)
        case _ => ShowsText(shown, code, "Internal error")
      else shown == error
    case _ => shown == error
  }

  ghost predicate IsErrorLine(line: Value, text: string) {
    line.Get("result") == None && line.Get("error").Some? && ShowsText(line.Get("error").value, -32000, text)
  }

  /** What a line says when it is made from that reply. */
  ghost predicate Conveys(line: Value, reply: Reply) {
    match reply
    case NoReply(error) => IsErrorLine(line, error)
    case Response(_, success, status, Blank) =>
      IsErrorLine(line, if success then "Empty response" else "Request failed with status " + status)
    case Response(_, _, _, Garbage(error)) => IsErrorLine(line, error)
    case Response(_, success, status, Document(json)) =>
      if json.Get("error").Some? then
        && line.Get("result") == None && line.Get("error").Some?
        && ShowsError(line.Get("error").value, json.Get("error").value)
      else if !success then IsErrorLine(line, "Request failed with status " + status)
      else
        && line.Get("error") == None
        && line.Get("result") == Some(if json.Get("result").Some? then json.Get("result").value else json)
  }

  lemma WrappedErrorShown(code: int, text: string)
    requires I64_MIN <= code <= I64_MAX
    ensures ShowsText(Obj(map["code" := Int(code), "message" := Str(NormalizeErrorMessage(code, text))]), code, text)
  {
    var prefix := "MCP error " + Decimal.Print(code) + ":";
    if prefix <= text {
      var lead, tail := TrimIs(text[|prefix|..]);
      assert IsRest(text[|prefix|..], lead, Trim(text[|prefix|..]), tail);
    }
  }

  lemma WrapErrorShows(error: Value)
    ensures ShowsError(WrapError(error), error)
  {
    match error.Get("code") {
      case Some(Int(code)) =>
        if I64_MIN <= code <= I64_MAX {
          match error.Get("message") {
            case Some(Str(text)) => WrappedErrorShown(code, text);
            case _ => WrappedErrorShown(code, "Internal error");
          }
        }
      case _ =>
    }
  }

  lemma ErrorPayloadShows(req: Value, text: string)
    ensures IsErrorLine(WrapResponse(req, ErrorPayload(-32000, text)), text)
  {
    WrapErrorShows(ErrorPayload(-32000, text).Get("error").value);
  }

  /** A successful document gives the line its own result, or all of it when it has none; an
      error in the document decides whatever the status; anything else becomes an error with
      its reason. */
  lemma ReplyIsConveyed(req: Value, reply: Reply)
    ensures Conveys(WrapResponse(req, Settle(ParsePayload(reply))), reply)
  {
    match ParsePayload(reply) {
      case Err(error) => ErrorPayloadShows(req, error);
      case Ok(payload) =>
        if payload.Get("error").Some? {
          WrapErrorShows(payload.Get("error").value);
        }
    }
  }

  // ---- the trace ----

  /** Why a message is posted: to initialize on the client's behalf, to forward the client's
      own request, or to confirm an initialization. */
  datatype Origin = AutoInit | Forward | Confirm

  /** Why a line is printed: it is a message that is no request, or the answer to a request
      whose own forwarding decided it, whose initialization on the client's behalf failed, or
      for which there was no endpoint to send anything to. */
  datatype Why = NoRequest | Relayed | InitFailed | NoEndpoint(error: string)

  datatype Event =
    | Post(origin: Origin, message: Value, session: Option<string>, reply: Reply)
    | Printed(about: Value, line: Value, why: Why)

  function Parse(origin: Origin, reply: Reply): Result<Value> {
    if origin == Confirm then ParseAcknowledgement(reply) else ParsePayload(reply)
  }

  /** An initialize exchange that ended with a result. */
  predicate IsInitSuccess(e: Event) {
    && e.Post? && e.origin != Confirm && IsInitialize(e.message)
    && ParsePayload(e.reply).Ok? && ParsePayload(e.reply).value.Get("error") == None
  }

  /** Only a successful response that holds no error makes an initialize exchange a success;
      and any successful response at all confirms. */
  lemma SuccessesAre(e: Event)
    ensures IsInitSuccess(e) <==>
            && e.Post? && e.origin != Confirm && e.message.Get("method") == Some(Str("initialize"))
            && e.reply.Response? && e.reply.success
            && e.reply.body.Document? && e.reply.body.json.Get("error") == None
    ensures IsConfirmed(e) <==> e.Post? && e.origin == Confirm && e.reply.Response? && e.reply.success
  {
  }

  predicate InitSucceeded(trace: seq<Event>) {
    trace != [] && (InitSucceeded(trace[..|trace| - 1]) || IsInitSuccess(trace[|trace| - 1]))
  }

  predicate IsConfirmed(e: Event) {
    e.Post? && e.origin == Confirm && ParseAcknowledgement(e.reply).Ok?
  }

  predicate Confirmed(trace: seq<Event>) {
    trace != [] && (Confirmed(trace[..|trace| - 1]) || IsConfirmed(trace[|trace| - 1]))
  }

  /** The session id the upstream named last. */
  function SessionOf(trace: seq<Event>): Option<string> {
    if trace == [] then None
    else
      var e := trace[|trace| - 1];
      if e.Post? && e.reply.Response? && e.reply.session.Some? then e.reply.session
      else SessionOf(trace[..|trace| - 1])
  }

  datatype Exchanged = Exchanged(origin: Origin, message: Value, payload: Value)

  /** The last initialization or forwarding since a line was printed, with what came of its
      last attempt. */
  function LastExchange(trace: seq<Event>): Option<Exchanged> {
    if trace == [] || trace[|trace| - 1].Printed? then None
    else
      var e := trace[|trace| - 1];
      if e.origin != Confirm then Some(Exchanged(e.origin, e.message, Settle(ParsePayload(e.reply))))
      else LastExchange(trace[..|trace| - 1])
  }

  /** An initialization has just succeeded and none has been confirmed. */
  predicate MustConfirm(trace: seq<Event>) {
    trace != [] && IsInitSuccess(trace[|trace| - 1]) && !Confirmed(trace)
  }

  function Posts(trace: seq<Event>): nat {
    if trace == [] then 0 else Posts(trace[..|trace| - 1]) + if trace[|trace| - 1].Post? then 1 else 0
  }

  /** The messages whose printed lines the trace holds, in order. */
  function Served(trace: seq<Event>): seq<Value> {
    if trace == [] then []
    else
      var e := trace[|trace| - 1];
      Served(trace[..|trace| - 1]) + if e.Printed? then [e.about] else []
  }

  /** The handshake permits posting this message now. */
  ghost predicate Allowed(past: seq<Event>, origin: Origin, message: Value) {
    match origin
    case AutoInit => IsOwnInitialize(message) && !Confirmed(past) && !MustConfirm(past)
    case Forward => IsRequest(message) && (IsInitialize(message) || InitSucceeded(past)) && !MustConfirm(past)
    case Confirm => message == INITIALIZED && InitSucceeded(past) && !Confirmed(past)
  }

  /** What each event must satisfy, given what went before: a post takes the upstream's next
      reply, carries the session id named last and is one the handshake permits; until one has
      been accepted, a successful initialization is confirmed before anything else; a printed line is
      the message itself or, for a request, the response made of what the upstream gave to
      that very request, or of the reason why it was not forwarded. */
  ghost predicate EventOk(upstream: nat -> Exchange, past: seq<Event>, e: Event) {
    match e
    case Post(origin, message, session, reply) =>
      && session == SessionOf(past)
      && reply == upstream(Posts(past)).reply
      && Allowed(past, origin, message)
    case Printed(about, line, why) =>
      && !MustConfirm(past)
      && (IsRequest(about) <==> why != NoRequest)
      && (if IsRequest(about) then Responds(about, line) else line == about)
      && (match why
          case NoRequest => true
          case Relayed =>
            && LastExchange(past).Some? && LastExchange(past).value.origin == Forward
            && LastExchange(past).value.message == about
            && line == WrapResponse(about, LastExchange(past).value.payload)
          case InitFailed =>
            && !Confirmed(past) && !IsInitialize(about)
            && LastExchange(past).Some? && LastExchange(past).value.origin == AutoInit
            && LastExchange(past).value.payload.Get("error").Some?
            && line == WrapResponse(about, LastExchange(past).value.payload)
          case NoEndpoint(error) =>
            LastExchange(past) == None && line == WrapResponse(about, ErrorPayload(-32000, error)))
  }

  ghost predicate TraceOk(upstream: nat -> Exchange, trace: seq<Event>) {
    trace == [] ||
    (TraceOk(upstream, trace[..|trace| - 1]) && EventOk(upstream, trace[..|trace| - 1], trace[|trace| - 1]))
  }

  /** All the summaries of a trace, one event later. */
  lemma Extended(upstream: nat -> Exchange, trace: seq<Event>, e: Event)
    ensures TraceOk(upstream, trace) && EventOk(upstream, trace, e) ==> TraceOk(upstream, trace + [e])
    ensures InitSucceeded(trace + [e]) == (InitSucceeded(trace) || IsInitSuccess(e))
    ensures Confirmed(trace + [e]) == (Confirmed(trace) || IsConfirmed(e))
    ensures e.Post? ==> Posts(trace + [e]) == Posts(trace) + 1 && Served(trace + [e]) == Served(trace)
    ensures e.Printed? ==> Posts(trace + [e]) == Posts(trace) && Served(trace + [e]) == Served(trace) + [e.about]
    ensures e.Post? ==>
              SessionOf(trace + [e]) ==
              if e.reply.Response? && e.reply.session.Some? then e.reply.session else SessionOf(trace)
    ensures e.Printed? ==> SessionOf(trace + [e]) == SessionOf(trace)
    ensures LastExchange(trace + [e]) ==
            if e.Printed? then None
            else if e.origin != Confirm then Some(Exchanged(e.origin, e.message, Settle(ParsePayload(e.reply))))
            else LastExchange(trace)
    ensures MustConfirm(trace + [e]) == (IsInitSuccess(e) && !Confirmed(trace))
  {
    assert (trace + [e])[..|trace|] == trace;
  }

  // ---- the gateway ----

  datatype Line = Empty | NotJson | Message(m: Value) | Broken(error: string)

  /** The messages among the lines read before the first read error. */
  function Messages(lines: seq<Line>): seq<Value> {
    if lines == [] || lines[0].Broken? then []
    else (if lines[0].Message? then [lines[0].m] else []) + Messages(lines[1..])
  }

  /** Line i is the first that could not be read. */
  predicate FirstBroken(lines: seq<Line>, i: nat, error: string) {
    i < |lines| && lines[i] == Broken(error) && forall k | 0 <= k < i :: !lines[k].Broken?
  }

  ghost predicate StopsWith(lines: seq<Line>, error: string) {
    exists i: nat :: FirstBroken(lines, i, error)
  }

  /** The messages of lines: those of a beginning without a read error come first, a read error
      hides all that follow, and of single lines only a message counts. */
  lemma {:induction false} MessagesAre(first: seq<Line>, rest: seq<Line>, m: Value, error: string)
    requires forall l | l in first :: !l.Broken?
    ensures Messages(first + rest) == Messages(first) + Messages(rest)
    ensures Messages(first + [Broken(error)] + rest) == Messages(first)
    ensures Messages([Message(m)]) == [m] && Messages([Empty]) == [] && Messages([NotJson]) == []
    decreases |first|
  {
    if first == [] {
      assert first + rest == rest && (first + [Broken(error)] + rest)[0] == Broken(error);
    } else {
      MessagesAre(first[1..], rest, m, error);
      assert (first + rest)[1..] == first[1..] + rest;
      assert (first + [Broken(error)] + rest)[1..] == first[1..] + [Broken(error)] + rest;
    }
  }

  lemma NextMessage(lines: seq<Line>, i: nat, served: seq<Value>)
    requires i < |lines|
    ensures served + Messages(lines[i..]) ==
            if lines[i].Broken? then served
            else (if lines[i].Message? then served + [lines[i].m] else served) + Messages(lines[i + 1..])
  {
    assert lines[i..][1..] == lines[i + 1..];
  }

  class Proxy {
    const retry: RetryPolicy
    const breaker: CircuitBreaker
    const clock: Clock
    const upstream: nat -> Exchange
    var initialized: bool
    var session: Option<string>
    var trace: seq<Event>

    /** What holds at every moment. */
    ghost predicate Consistent()
      reads this
    {
      && TraceOk(upstream, trace)
      && initialized == Confirmed(trace)
      && session == SessionOf(trace)
    }

    /** What holds between two lines of input: everything posted has led to a printed line. */
    ghost predicate Valid()
      reads this
    {
      Consistent() && (trace == [] || trace[|trace| - 1].Printed?)
    }

    constructor (retry: RetryPolicy, breaker: CircuitBreaker, clock: Clock, upstream: nat -> Exchange)
      ensures Valid() && trace == [] && !initialized
      ensures this.breaker == breaker && this.clock == clock && this.upstream == upstream
    {
      this.retry, this.breaker, this.clock, this.upstream := retry, breaker, clock, upstream;
      initialized, session, trace := false, None, [];
    }

    /** Every attempt that reached the upstream goes on the trace: it carries the session id
        known so far, and its reply may name another. */
    method Record(origin: Origin, message: Value, reply: Reply)
      requires TraceOk(upstream, trace) && session == SessionOf(trace)
      requires Allowed(trace, origin, message) && reply == upstream(Posts(trace)).reply
      modifies this`trace, this`session
      ensures TraceOk(upstream, trace) && session == SessionOf(trace)
      ensures trace == old(trace) + [Post(origin, message, old(session), reply)]
    {
      var e := Post(origin, message, session, reply);
      Extended(upstream, trace, e);
      trace := trace + [e];
      if reply.Response? && reply.session.Some? {
        session := reply.session;
      }
    }

    /** Puts the attempts of one delivery on the trace; only the last can have succeeded. */
    method RecordAll(origin: Origin, message: Value, replies: seq<Reply>, result: Result<Value>)
      requires TraceOk(upstream, trace) && session == SessionOf(trace)
      requires Allowed(trace, origin, message) && Retried(upstream, Posts(trace), origin, replies, result)
      modifies this`trace, this`session
      ensures TraceOk(upstream, trace) && session == SessionOf(trace)
      ensures Recorded(old(trace), trace, origin, message, replies, |replies|)
    {
      for i := 0 to |replies|
        invariant TraceOk(upstream, trace) && session == SessionOf(trace)
        invariant Recorded(old(trace), trace, origin, message, replies, i)
      {
        RecordedStep(upstream, old(trace), trace, origin, message, session, replies, result, i);
        Record(origin, message, replies[i]);
      }
    }

    /** The replies of one delivery, retried behind the circuit breaker: failures, and then
        the one that decides the result. */
    method Fetch(origin: Origin) returns (result: Result<Value>, replies: seq<Reply>)
      modifies breaker, clock
      ensures |replies| <= retry.maxRetries + 1 && (result.Err? ==> |replies| == retry.maxRetries + 1)
      ensures Retried(upstream, Posts(trace), origin, replies, result)
    {
      ghost var before := breaker.View();
      var sent := Posts(trace);
      var log;
      result, log := RunWithRetry(retry, breaker, clock, Operation(upstream, sent, origin));
      replies := Replies(upstream, sent, |log|);
      Fetched(retry, breaker.policy, before, upstream, sent, origin, log);
    }

    /** Posts a message until it is answered or given up, and puts the posts on the trace. */
    method Deliver(origin: Origin, message: Value) returns (result: Result<Value>)
      requires TraceOk(upstream, trace) && session == SessionOf(trace)
      requires Allowed(trace, origin, message)
      modifies this`trace, this`session, breaker, clock
      ensures TraceOk(upstream, trace) && session == SessionOf(trace)
      ensures Posts(old(trace)) < Posts(trace) <= Posts(old(trace)) + retry.maxRetries + 1
      ensures result.Err? ==> Posts(trace) == Posts(old(trace)) + retry.maxRetries + 1
      ensures Delivered(old(trace), trace, origin, message, result)
      ensures origin != Confirm ==> IsPayload(Settle(result))
    {
      var replies;
      result, replies := Fetch(origin);
      RecordAll(origin, message, replies, result);
      RecordedIsDelivered(old(trace), trace, origin, message, replies, result);
    }

    method PrintLine(about: Value, line: Value, why: Why)
      requires Consistent() && EventOk(upstream, trace, Printed(about, line, why))
      modifies this`trace
      ensures Valid() && trace == old(trace) + [Printed(about, line, why)]
      ensures Served(trace) == Served(old(trace)) + [about]
    {
      Extended(upstream, trace, Printed(about, line, why));
      trace := trace + [Printed(about, line, why)];
    }

    /** Confirms an initialization that has succeeded. */
    method ConfirmInitialized()
      requires Consistent() && InitSucceeded(trace) && !initialized
      modifies this, breaker, clock
      ensures Consistent() && InitSucceeded(trace) && !MustConfirm(trace)
      ensures Served(trace) == Served(old(trace)) && LastExchange(trace) == LastExchange(old(trace))
      ensures old(trace) <= trace
    {
      var result := Deliver(Confirm, INITIALIZED);
      if result.Ok? {
        initialized := true;
      }
    }

    /** One request line. `endpoint` is the error of waiting for the message endpoint, which
        only the SSE gateway does; `initId` and the versions go into an initialize request made
        on the client's behalf. The request is forwarded and its answer relayed, unless there
        is no endpoint or an initialization it had to wait for fails. */
    method Handle(message: Value, endpoint: Option<string>, initId: string, protocolVersion: string,
                  clientVersion: string)
      requires Valid() && IsRequest(message)
      modifies this, breaker, clock
      ensures Valid() && Served(trace) == Served(old(trace)) + [message]
      ensures trace != [] && trace[|trace| - 1].Printed? && trace[|trace| - 1].about == message
      ensures endpoint == None ==>
                if old(initialized) || message.Get("method") == Some(Str("initialize"))
                then Opens(old(trace), trace, Forward, message)
                else Opens(old(trace), trace, AutoInit, InitializeRequest(initId, protocolVersion, clientVersion))
      ensures match endpoint
              case Some(error) => trace[|trace| - 1].why == NoEndpoint(error) && Posts(trace) == Posts(old(trace))
              case None => trace[|trace| - 1].why == Relayed ||
                           (trace[|trace| - 1].why == InitFailed && !old(initialized)
                            && message.Get("method") != Some(Str("initialize")))
    {
      if endpoint.Some? {
        Reject(message, ErrorPayload(-32000, endpoint.value), NoEndpoint(endpoint.value));
        return;
      }
      if !initialized && !IsInitialize(message) {
        HandleUninitialized(message, initId, protocolVersion, clientVersion);
        return;
      }
      if initialized {
        ConfirmedMeansInitialized(upstream, trace);
      }
      ForwardRequest(message);
    }

    /** A request that comes before the client has initialized. */
    method HandleUninitialized(message: Value, initId: string, protocolVersion: string, clientVersion: string)
      requires Valid() && IsRequest(message) && !initialized && !IsInitialize(message)
      modifies this, breaker, clock
      ensures Valid() && Served(trace) == Served(old(trace)) + [message]
      ensures trace != [] && trace[|trace| - 1].Printed? && trace[|trace| - 1].about == message
      ensures trace[|trace| - 1].why == Relayed || trace[|trace| - 1].why == InitFailed
      ensures Opens(old(trace), trace, AutoInit, InitializeRequest(initId, protocolVersion, clientVersion))
    {
      var payload := InitializeForClient(initId, protocolVersion, clientVersion);
      if payload.Get("error").Some? {
        RefusalIsOk(upstream, trace, message, payload);
        Reject(message, payload, InitFailed);
      } else {
        ForwardRequest(message);
      }
    }

    /** Initializes on the client's behalf and, when that succeeds, confirms it. */
    method InitializeForClient(id: string, protocolVersion: string, clientVersion: string) returns (payload: Value)
      requires Valid() && !initialized
      modifies this, breaker, clock
      ensures Consistent() && !MustConfirm(trace) && IsPayload(payload)
      ensures Served(trace) == Served(old(trace))
      ensures LastExchange(trace).Some? && LastExchange(trace).value.origin == AutoInit
      ensures LastExchange(trace).value.payload == payload
      ensures Opens(old(trace), trace, AutoInit, InitializeRequest(id, protocolVersion, clientVersion))
      ensures if payload.Get("error").Some? then !Confirmed(trace) else InitSucceeded(trace)
    {
      var initialize := InitializeRequest(id, protocolVersion, clientVersion);
      OwnInitializeIs(id, protocolVersion, clientVersion);
      var result := Deliver(AutoInit, initialize);
      payload := Settle(result);
      if payload.Get("error") == None {
        ConfirmInitialized();
      }
    }

    /** The request itself goes upstream, and its answer to standard output; an initialize of
        the client's own that succeeds is confirmed in between. */
    method ForwardRequest(message: Value)
      requires Consistent() && Allowed(trace, Forward, message)
      modifies this, breaker, clock
      ensures Valid() && Served(trace) == Served(old(trace)) + [message]
      ensures trace != [] && trace[|trace| - 1].Printed? && trace[|trace| - 1].about == message
      ensures trace[|trace| - 1].why == Relayed && Opens(old(trace), trace, Forward, message)
    {
      var result := Deliver(Forward, message);
      var payload := Settle(result);
      if IsInitialize(message) && payload.Get("error") == None && !initialized {
        ConfirmInitialized();
      }
      WrapResponds(message, payload);
      PrintLine(message, WrapResponse(message, payload), Relayed);
    }

    method Reject(message: Value, payload: Value, why: Why)
      requires Consistent() && IsRequest(message) && IsPayload(payload)
      requires Responds(message, WrapResponse(message, payload)) ==>
                 EventOk(upstream, trace, Printed(message, WrapResponse(message, payload), why))
      modifies this`trace
      ensures Valid() && trace == old(trace) + [Printed(message, WrapResponse(message, payload), why)]
      ensures Served(trace) == Served(old(trace)) + [message] && Posts(trace) == Posts(old(trace))
    {
      WrapResponds(message, payload);
      Extended(upstream, trace, Printed(message, WrapResponse(message, payload), why));
      PrintLine(message, WrapResponse(message, payload), why);
    }

    method Serve(m: Value, endpoint: Option<string>, initId: string, protocolVersion: string, clientVersion: string)
      requires Valid()
      modifies this, breaker, clock
      ensures Valid() && Served(trace) == Served(old(trace)) + [m]
    {
      if IsRequest(m) {
        Handle(m, endpoint, initId, protocolVersion, clientVersion);
      } else {
        PrintLine(m, m, NoRequest);
      }
    }

    /** The whole run over standard input. Every message read is served exactly once and in
        order, whatever the upstream does. */
    method Run(lines: seq<Line>, endpoint: nat -> Option<string>, initId: nat -> string,
               protocolVersion: string, clientVersion: string)
      returns (result: Result<()>)
      requires Valid()
      modifies this, breaker, clock
      ensures Valid()
      ensures Served(trace) == Served(old(trace)) + Messages(lines)
      ensures match result
              case Ok(_) => forall l | l in lines :: !l.Broken?
              case Err(error) => StopsWith(lines, error)
    {
      for i := 0 to |lines|
        invariant Valid()
        invariant Served(trace) + Messages(lines[i..]) == Served(old(trace)) + Messages(lines)
        invariant forall k | 0 <= k < i :: !lines[k].Broken?
      {
        NextMessage(lines, i, Served(trace));
        match lines[i] {
          case Broken(error) =>
            assert FirstBroken(lines, i, error);
            return Err(error);
          case Empty =>
          case NotJson =>
          case Message(m) =>
            Serve(m, endpoint(i), initId(i), protocolVersion, clientVersion);
        }
      }
      result := Ok(());
    }
  }

  /** The attempts of one delivery, when `sent` posts have been made before it. */
  function Operation(upstream: nat -> Exchange, sent: nat, origin: Origin): (f: nat -> Reliability.Outcome<Value>)
    ensures forall i: nat :: f(i).result == Parse(origin, upstream(sent + i).reply)
  {
    (i: nat) => Outcome(upstream(sent + i).duration, Parse(origin, upstream(sent + i).reply))
  }

  function Replies(upstream: nat -> Exchange, sent: nat, n: nat): (r: seq<Reply>)
    ensures |r| == n && forall i | 0 <= i < n :: r[i] == upstream(sent + i).reply
  {
    seq(n, (i: nat) => upstream(sent + i).reply)
  }

  /** The replies of one delivery are the upstream's next ones, read in order; all but the
      last were failures, and the last decides the result. */
  ghost predicate Retried(upstream: nat -> Exchange, sent: nat, origin: Origin, replies: seq<Reply>,
                          result: Result<Value>) {
    && replies != [] && result == Parse(origin, replies[|replies| - 1])
    && (forall i | 0 <= i < |replies| - 1 :: Parse(origin, replies[i]).Err?)
    && (forall i | 0 <= i < |replies| :: replies[i] == upstream(sent + i).reply)
  }

  lemma Fetched(retry: RetryPolicy, p: BreakerPolicy, b: Breaker, upstream: nat -> Exchange, sent: nat, origin: Origin,
                log: seq<Attempt<Value>>)
    requires log != [] && LogOk(retry, p, b, log, Operation(upstream, sent, origin))
    ensures Retried(upstream, sent, origin, Replies(upstream, sent, |log|), log[|log| - 1].result)
  {
    var operation := Operation(upstream, sent, origin);
    LogOutcomes(retry, p, b, log, operation);
    forall i | 0 <= i < |log| ensures Parse(origin, Replies(upstream, sent, |log|)[i]) == log[i].result {
      assert log[i].result == operation(i).result;
    }
  }

  /** After the past the first event is a post of that kind and message. */
  predicate Opens(past: seq<Event>, trace: seq<Event>, origin: Origin, message: Value) {
    && |past| < |trace| && trace[..|past|] == past
    && trace[|past|].Post? && trace[|past|].origin == origin && trace[|past|].message == message
  }

  /** What the first n attempts of a delivery have added to the trace. */
  ghost predicate Recorded(past: seq<Event>, trace: seq<Event>, origin: Origin, message: Value, replies: seq<Reply>,
                           n: nat)
    requires n <= |replies|
  {
    && Served(trace) == Served(past) && Posts(trace) == Posts(past) + n
    && |trace| == |past| + n && trace[..|past|] == past && (n > 0 ==> Opens(past, trace, origin, message))
    && InitSucceeded(trace) ==
       (InitSucceeded(past) || (n > 0 && InitializedBy(origin, message, Parse(origin, replies[n - 1]))))
    && Confirmed(trace) == (Confirmed(past) || (n > 0 && origin == Confirm && Parse(origin, replies[n - 1]).Ok?))
    && LastExchange(trace) ==
       (if origin != Confirm && n > 0 then Some(Exchanged(origin, message, Settle(Parse(origin, replies[n - 1]))))
        else LastExchange(past))
    && MustConfirm(trace) ==
       if n > 0 then InitializedBy(origin, message, Parse(origin, replies[n - 1])) && !Confirmed(trace)
       else MustConfirm(past)
  }

  lemma RecordedStep(upstream: nat -> Exchange, past: seq<Event>, trace: seq<Event>, origin: Origin, message: Value,
                     session: Option<string>, replies: seq<Reply>, result: Result<Value>, n: nat)
    requires n < |replies| && Recorded(past, trace, origin, message, replies, n)
    requires Allowed(past, origin, message) && Retried(upstream, Posts(past), origin, replies, result)
    ensures Allowed(trace, origin, message) && replies[n] == upstream(Posts(trace)).reply
    ensures Recorded(past, trace + [Post(origin, message, session, replies[n])], origin, message, replies, n + 1)
  {
    assert n > 0 ==> Parse(origin, replies[n - 1]).Err?;
    StillAllowed(past, trace, origin, message, replies, n);
    RecordedMore(upstream, past, trace, origin, message, session, replies, n);
  }

  lemma StillAllowed(past: seq<Event>, trace: seq<Event>, origin: Origin, message: Value, replies: seq<Reply>, n: nat)
    requires n < |replies| && Recorded(past, trace, origin, message, replies, n) && Allowed(past, origin, message)
    requires n > 0 ==> Parse(origin, replies[n - 1]).Err?
    ensures Allowed(trace, origin, message)
  {
  }

  lemma RecordedMore(upstream: nat -> Exchange, past: seq<Event>, trace: seq<Event>, origin: Origin, message: Value,
                     session: Option<string>, replies: seq<Reply>, n: nat)
    requires n < |replies| && Recorded(past, trace, origin, message, replies, n)
    requires n > 0 ==> Parse(origin, replies[n - 1]).Err?
    ensures Recorded(past, trace + [Post(origin, message, session, replies[n])], origin, message, replies, n + 1)
  {
    Extended(upstream, trace, Post(origin, message, session, replies[n]));
  }

  /** What a whole delivery has added to the trace. */
  ghost predicate Delivered(past: seq<Event>, trace: seq<Event>, origin: Origin, message: Value,
                            result: Result<Value>) {
    && Served(trace) == Served(past) && Opens(past, trace, origin, message)
    && InitSucceeded(trace) == (InitSucceeded(past) || InitializedBy(origin, message, result))
    && Confirmed(trace) == (Confirmed(past) || (origin == Confirm && result.Ok?))
    && LastExchange(trace) ==
       (if origin != Confirm then Some(Exchanged(origin, message, Settle(result))) else LastExchange(past))
    && MustConfirm(trace) == (InitializedBy(origin, message, result) && !Confirmed(trace))
  }

  lemma RecordedIsDelivered(past: seq<Event>, trace: seq<Event>, origin: Origin, message: Value, replies: seq<Reply>,
                            result: Result<Value>)
    requires replies != [] && result == Parse(origin, replies[|replies| - 1])
    requires Recorded(past, trace, origin, message, replies, |replies|)
    ensures Delivered(past, trace, origin, message, result)
    ensures origin != Confirm ==> IsPayload(Settle(result))
  {
  }

  lemma RefusalIsOk(upstream: nat -> Exchange, past: seq<Event>, message: Value, payload: Value)
    requires IsRequest(message) && !IsInitialize(message) && IsPayload(payload) && payload.Get("error").Some?
    requires !Confirmed(past) && !MustConfirm(past) && LastExchange(past).Some?
    requires LastExchange(past).value.origin == AutoInit && LastExchange(past).value.payload == payload
    ensures EventOk(upstream, past, Printed(message, WrapResponse(message, payload), InitFailed))
  {
    WrapResponds(message, payload);
  }

  predicate InitializedBy(origin: Origin, message: Value, result: Result<Value>) {
    origin != Confirm && IsInitialize(message) && result.Ok? && result.value.Get("error") == None
  }

  // ---- what a trace promises ----

  lemma {:induction false} ConfirmedMeansInitialized(upstream: nat -> Exchange, trace: seq<Event>)
    requires TraceOk(upstream, trace) && Confirmed(trace)
    ensures InitSucceeded(trace)
  {
    if !IsConfirmed(trace[|trace| - 1]) {
      ConfirmedMeansInitialized(upstream, trace[..|trace| - 1]);
    }
  }

  lemma {:induction false} EveryEvent(upstream: nat -> Exchange, trace: seq<Event>, i: nat)
    requires TraceOk(upstream, trace) && i < |trace|
    ensures EventOk(upstream, trace[..i], trace[i])
    decreases |trace|
  {
    if i < |trace| - 1 {
      EveryEvent(upstream, trace[..|trace| - 1], i);
      assert trace[..|trace| - 1][..i] == trace[..i];
    }
  }

  lemma {:induction false} InitWitness(trace: seq<Event>) returns (j: nat)
    requires InitSucceeded(trace)
    ensures j < |trace| && IsInitSuccess(trace[j])
    decreases |trace|
  {
    j := |trace| - 1;
    if !IsInitSuccess(trace[j]) {
      j := InitWitness(trace[..|trace| - 1]);
    }
  }

  lemma {:induction false} ConfirmedFrom(trace: seq<Event>, i: nat)
    requires i < |trace| && IsConfirmed(trace[i])
    ensures Confirmed(trace)
    decreases |trace|
  {
    if i < |trace| - 1 {
      ConfirmedFrom(trace[..|trace| - 1], i);
    }
  }

  /** No request but initialize goes upstream before an initialize exchange has succeeded. */
  lemma NothingBeforeInitialize(upstream: nat -> Exchange, trace: seq<Event>, i: nat) returns (j: nat)
    requires TraceOk(upstream, trace) && i < |trace| && trace[i].Post?
    requires trace[i].message.Get("method") != Some(Str("initialize"))
    ensures j < i && IsInitSuccess(trace[j])
  {
    EveryEvent(upstream, trace, i);
    j := InitWitness(trace[..i]);
    assert trace[j] == trace[..i][j];
  }

  /** Once an initialized notification has been accepted, no other is sent and the gateway
      never initializes again of its own accord. */
  lemma ConfirmedOnce(upstream: nat -> Exchange, trace: seq<Event>, i: nat, j: nat)
    requires TraceOk(upstream, trace) && i < j < |trace| && IsConfirmed(trace[i])
    ensures !(trace[j].Post? && trace[j].origin != Forward)
  {
    EveryEvent(upstream, trace, j);
    assert trace[i] == trace[..j][i];
    ConfirmedFrom(trace[..j], i);
  }

  /** While no notification has been accepted, a successful initialization is confirmed at
      once: nothing is posted or printed before a notification has been tried. */
  lemma SuccessIsConfirmedAtOnce(upstream: nat -> Exchange, trace: seq<Event>, i: nat)
    requires TraceOk(upstream, trace) && i + 1 < |trace| && IsInitSuccess(trace[i]) && !Confirmed(trace[..i])
    ensures trace[i + 1].Post? && trace[i + 1].origin == Confirm && trace[i + 1].message == INITIALIZED
  {
    EveryEvent(upstream, trace, i + 1);
    SuccessMustBeConfirmed(trace, i);
    MustConfirmFirst(upstream, trace[..i + 1], trace[i + 1]);
  }

  lemma SuccessMustBeConfirmed(trace: seq<Event>, i: nat)
    requires i < |trace| && IsInitSuccess(trace[i]) && !Confirmed(trace[..i])
    ensures MustConfirm(trace[..i + 1])
  {
    var past := trace[..i + 1];
    assert past[..|past| - 1] == trace[..i] && past[|past| - 1] == trace[i];
    assert !IsConfirmed(trace[i]);
  }

  lemma MustConfirmFirst(upstream: nat -> Exchange, past: seq<Event>, e: Event)
    requires EventOk(upstream, past, e) && MustConfirm(past)
    ensures e.Post? && e.origin == Confirm && e.message == INITIALIZED
  {
  }

  /** A relayed answer is what the upstream gave to the last attempt at that very request,
      made since the line before was printed. */
  lemma RelayedAnswerIsOwn(upstream: nat -> Exchange, trace: seq<Event>, i: nat) returns (j: nat)
    requires TraceOk(upstream, trace) && i < |trace| && trace[i].Printed? && trace[i].why == Relayed
    ensures j < i && trace[j].Post? && trace[j].origin == Forward && trace[j].message == trace[i].about
    ensures trace[i].line == WrapResponse(trace[i].about, Settle(ParsePayload(trace[j].reply)))
    ensures Conveys(trace[i].line, trace[j].reply)
    ensures forall k | j < k < i :: trace[k].Post? && trace[k].origin == Confirm
  {
    EveryEvent(upstream, trace, i);
    j := ExchangeWitness(trace[..i]);
    assert trace[j] == trace[..i][j];
    forall k | j < k < i ensures trace[k].Post? && trace[k].origin == Confirm {
      assert trace[k] == trace[..i][k];
    }
    ReplyIsConveyed(trace[i].about, trace[j].reply);
  }

  /** A request that is refused because initialization failed gets the error of the last
      attempt at it; one for which there is no endpoint gets the reason, and nothing has been
      posted for it. */
  lemma RefusalSaysWhy(upstream: nat -> Exchange, trace: seq<Event>, i: nat) returns (j: nat)
    requires TraceOk(upstream, trace) && i < |trace| && trace[i].Printed?
    requires trace[i].why == InitFailed || trace[i].why.NoEndpoint?
    ensures trace[i].line.Get("error").Some?
    ensures trace[i].why == InitFailed ==>
              j < i && trace[j].Post? && trace[j].origin == AutoInit && Conveys(trace[i].line, trace[j].reply)
    ensures trace[i].why.NoEndpoint? ==>
              && IsErrorLine(trace[i].line, trace[i].why.error)
              && (i == 0 || !trace[i - 1].Post? || trace[i - 1].origin == Confirm)
  {
    EveryEvent(upstream, trace, i);
    j := 0;
    if trace[i].why == InitFailed {
      j := ExchangeWitness(trace[..i]);
      assert trace[j] == trace[..i][j];
      ReplyIsConveyed(trace[i].about, trace[j].reply);
    } else {
      ErrorPayloadShows(trace[i].about, trace[i].why.error);
    }
  }

  predicate NamesSession(e: Event) {
    e.Post? && e.reply.Response? && e.reply.session.Some?
  }

  /** A post carries the session id that the upstream named last. */
  lemma SessionIsCarried(upstream: nat -> Exchange, trace: seq<Event>, i: nat, j: nat)
    requires TraceOk(upstream, trace) && i < j < |trace| && trace[j].Post? && NamesSession(trace[i])
    requires forall k | i < k < j :: !NamesSession(trace[k])
    ensures trace[j].session == trace[i].reply.session
  {
    EveryEvent(upstream, trace, j);
    var past := trace[..j];
    forall k | i < k < j ensures !NamesSession(past[k]) {
      assert past[k] == trace[k];
    }
    SessionSince(past, i);
  }

  lemma {:induction false} SessionSince(trace: seq<Event>, i: nat)
    requires i < |trace| && NamesSession(trace[i]) && forall k | i < k < |trace| :: !NamesSession(trace[k])
    ensures SessionOf(trace) == trace[i].reply.session
    decreases |trace|
  {
    if i < |trace| - 1 {
      SessionSince(trace[..|trace| - 1], i);
    }
  }

  /** Before the upstream has named a session, posts carry none. */
  lemma NoSessionBeforeNamed(upstream: nat -> Exchange, trace: seq<Event>, j: nat)
    requires TraceOk(upstream, trace) && j < |trace| && trace[j].Post?
    requires forall k | 0 <= k < j :: !NamesSession(trace[k])
    ensures trace[j].session == None
  {
    EveryEvent(upstream, trace, j);
    NoSessionNamed(trace[..j]);
  }

  lemma {:induction false} NoSessionNamed(trace: seq<Event>)
    requires forall k | 0 <= k < |trace| :: !NamesSession(trace[k])
    ensures SessionOf(trace) == None
    decreases |trace|
  {
    if trace != [] {
      NoSessionNamed(trace[..|trace| - 1]);
    }
  }

  lemma {:induction false} ExchangeWitness(trace: seq<Event>) returns (j: nat)
    requires LastExchange(trace).Some?
    ensures j < |trace| && trace[j].Post?
    ensures LastExchange(trace).value ==
            Exchanged(trace[j].origin, trace[j].message, Settle(ParsePayload(trace[j].reply)))
    ensures forall k | j < k < |trace| :: trace[k].Post? && trace[k].origin == Confirm
    decreases |trace|
  {
    j := |trace| - 1;
    if trace[j].origin == Confirm {
      j := ExchangeWitness(trace[..|trace| - 1]);
    }
  }

  /** The i-th served message and the line printed for it. */
  lemma {:induction false} ServedInOrder(upstream: nat -> Exchange, trace: seq<Event>, k: nat) returns (i: nat)
    requires TraceOk(upstream, trace) && k < |Served(trace)|
    ensures i < |trace| && trace[i].Printed? && trace[i].about == Served(trace)[k]
    ensures |Served(trace[..i])| == k
    ensures var m := Served(trace)[k];
            if m.Get("method").Some? && m.Get("id").Some? then Responds(m, trace[i].line) else trace[i].line == m
    decreases |trace|
  {
    var past := trace[..|trace| - 1];
    if k < |Served(past)| {
      i := ServedInOrder(upstream, past, k);
      assert past[..i] == trace[..i];
    } else {
      i := |trace| - 1;
    }
  }
}
