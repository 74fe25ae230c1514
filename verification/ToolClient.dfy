/** Matching answers to requests in the tool client: fresh request ids
    (rust/src/tool_api/client.rs) and the table of pending requests of its WebSocket and gRPC
    transports (rust/src/tool_api/transport.rs). The client makes one request at a time; what
    arrives, and when, is up to the peer. */
module ToolClient {
  import opened Json
  import opened Decimal

  const U64_MAX: nat := 0xffff_ffff_ffff_ffff

  // ---- ids ----

  function NextSeq(seqNo: nat): nat {
    if seqNo + 1 <= U64_MAX then seqNo + 1 else U64_MAX
  }

  function RequestId(seqNo: nat): string {
    "tool-api-" + PrintNat(seqNo)
  }

  /** The counter after n requests. */
  function SeqAfter(n: nat): nat {
    if n == 0 then 0 else NextSeq(SeqAfter(n - 1))
  }

  /** The id of the n-th request of a client. */
  function IdOf(n: nat): string {
    RequestId(SeqAfter(n))
  }

  lemma {:induction false} SeqAfterIs(n: nat)
    ensures SeqAfter(n) == if n <= U64_MAX then n else U64_MAX
  {
    if n > 0 {
      SeqAfterIs(n - 1);
    }
  }

  /** Two requests share an id only once the counter has stuck at its maximum. */
  lemma IdsDistinctIff(m: nat, n: nat)
    ensures IdOf(m) == IdOf(n) <==> m == n || (m >= U64_MAX && n >= U64_MAX)
  {
    SeqAfterIs(m);
    SeqAfterIs(n);
    if IdOf(m) == IdOf(n) {
      assert IdOf(m)[9..] == PrintNat(SeqAfter(m)) && IdOf(n)[9..] == PrintNat(SeqAfter(n));
      PrintNatInjective(SeqAfter(m), SeqAfter(n));
    }
  }

  /** The table key of an id; `render` is the JSON text of a value that is not a scalar. */
  function KeyOf(render: Value -> string, id: Value): string {
    match id
    case Str(s) => "s:" + s
    case Int(i) => "n:" + Print(i)
    case Float(text) => "n:" + text
    case Bool(b) => "b:" + if b then "true" else "false"
    case Null => "null"
    case _ => "j:" + render(id)
  }

  function KeyFromEnvelope(render: Value -> string, m: Value): Option<string> {
    match m.Get("id")
    case Some(id) => Some(KeyOf(render, id))
    case None => None
  }

  /** The first two characters of a key tell the kind of the id. */
  lemma KeyHead(render: Value -> string, id: Value)
    ensures var key := KeyOf(render, id);
            && |key| >= 2
            && key[0] == (match id case Str(_) => 's' case Int(_) => 'n' case Float(_) => 'n' case Bool(_) => 'b'
                                   case Null => 'n' case _ => 'j')
            && key[1] == (if id.Null? then 'u' else ':')
  {
  }

  lemma KeyTail(render: Value -> string, id: Value)
    ensures id.Str? ==> KeyOf(render, id)[2..] == id.s
    ensures id.Int? ==> KeyOf(render, id)[2..] == Print(id.i)
    ensures id.Bool? ==> KeyOf(render, id)[2..] == if id.b then "true" else "false"
    ensures id.Int? || id.Float? ==> KeyOf(render, id)[2..] == NumberText(id)
    ensures id.Arr? || id.Obj? ==> KeyOf(render, id)[2..] == render(id)
  {
  }

  /** A string id is the only id with its key. */
  lemma StringKeyInjective(render: Value -> string, s: string, id: Value)
    requires KeyOf(render, id) == KeyOf(render, Str(s))
    ensures id == Str(s)
  {
    KeyHead(render, id);
    KeyTail(render, id);
    KeyTail(render, Str(s));
  }

  /** The JSON text of a number. */
  function NumberText(id: Value): string
    requires id.Int? || id.Float?
  {
    match id case Int(i) => Print(i) case Float(text) => text
  }

  /** Different ids have the same key exactly when both are numbers of the same text, one of
      them fractional, or both are containers of the same text. */
  lemma KeysCollideIff(render: Value -> string, a: Value, b: Value)
    ensures KeyOf(render, a) == KeyOf(render, b) <==>
            || a == b
            || ((a.Int? || a.Float?) && (b.Int? || b.Float?) && (a.Float? || b.Float?)
                && NumberText(a) == NumberText(b))
            || ((a.Arr? || a.Obj?) && (b.Arr? || b.Obj?) && render(a) == render(b))
  {
    KeyHead(render, a);
    KeyHead(render, b);
    KeyTail(render, a);
    KeyTail(render, b);
    if a.Int? && b.Int? && Print(a.i) == Print(b.i) {
      PrintInjective(a.i, b.i);
    } else if a.Bool? && b.Bool? {
      assert "true"[0] != "false"[0];
    }
  }

  lemma PrintInjective(m: int, n: int)
    requires Print(m) == Print(n)
    ensures m == n
  {
    PrintSign(m);
    PrintSign(n);
    PrintNatInjective(if m < 0 then -m else m, if n < 0 then -n else n);
  }

  lemma PrintSign(n: int)
    ensures |Print(n)| > 0 && (Print(n)[0] == '-' <==> n < 0)
    ensures PrintNat(if n < 0 then -n else n) == if n < 0 then Print(n)[1..] else Print(n)
  {
    assert n >= 0 ==> IsDigit(PrintNat(n)[0]);
  }

  // ---- one client and its peer ----

  /** The n-th request, from the sending of its message to its end. `answer` is what the
      reader has put on its channel; `Late` is the moment after the timeout at which its entry
      is still in the table. A caller that drops the request half way leaves the entry there. */
  datatype Current = Idle | Waiting(answer: Option<Value>) | Late

  datatype End = Answered(payload: Value) | Failed

  /** `made` requests so far; `pending` maps keys to request numbers; `ends` says how each
      finished request ended, and `abandoned` which ones were dropped half way. */
  datatype State = State(seqNo: nat, made: nat, current: Current, pending: map<string, nat>, ends: map<nat, End>,
                         abandoned: set<nat>)

  const START := State(0, 0, Idle, map[], map[], {})

  datatype Event = Request | SendFails | Arrive(payload: Value) | Receive | Expire | GiveUp | Abandon

  predicate Enabled(st: State, e: Event) {
    match e
    case Request => st.current.Idle?
    case SendFails => st.current.Waiting?
    case Arrive(_) => true
    case Receive => st.current.Waiting? && st.current.answer.Some?
    case Expire => st.current.Waiting? && st.current.answer == None
    case GiveUp => st.current.Late?
    case Abandon => st.current != Idle
  }

  function CurrentKey(st: State): string {
    "s:" + RequestId(st.seqNo)
  }

  /** The reader task: it takes whatever entry has the payload's key and sends on it. */
  function Arrived(render: Value -> string, st: State, payload: Value): State {
    match KeyFromEnvelope(render, payload)
    case Some(key) =>
      if key in st.pending then
        var n := st.pending[key];
        st.(pending := st.pending - {key},
            current := if n == st.made && st.current == Waiting(None) then Waiting(Some(payload)) else st.current)
      else st
    case None => st
  }

  function Finish(st: State, end: End): State {
    st.(current := Idle, ends := st.ends[st.made := end])
  }

  function Next(render: Value -> string, st: State, e: Event): State
    requires Enabled(st, e)
  {
    match e
    case Request =>
      var st' := st.(seqNo := NextSeq(st.seqNo), made := st.made + 1, current := Waiting(None));
      st'.(pending := st.pending[CurrentKey(st') := st'.made])
    case SendFails => Finish(st.(pending := st.pending - {CurrentKey(st)}), Failed)
    case Arrive(payload) => Arrived(render, st, payload)
    case Receive => Finish(st, Answered(st.current.answer.value))
    case Expire => st.(current := Late)
    case GiveUp => Finish(st.(pending := st.pending - {CurrentKey(st)}), Failed)
    case Abandon => st.(current := Idle, abandoned := st.abandoned + {st.made})
  }

  predicate IsRun(render: Value -> string, trace: seq<Event>)
    decreases |trace|, 1
  {
    trace == [] ||
    (IsRun(render, trace[..|trace| - 1]) && Enabled(After(render, trace[..|trace| - 1]), trace[|trace| - 1]))
  }

  function After(render: Value -> string, trace: seq<Event>): State
    requires IsRun(render, trace)
    decreases |trace|, 2
  {
    if trace == [] then START
    else Next(render, After(render, trace[..|trace| - 1]), trace[|trace| - 1])
  }

  predicate Carries(payload: Value, n: nat) {
    payload.Get("id") == Some(Str(IdOf(n)))
  }

  predicate EntryOk(st: State, k: string)
    requires k in st.pending
  {
    var n := st.pending[k];
    && k == "s:" + IdOf(n)
    && (n in st.abandoned || (n == st.made && (st.current == Waiting(None) || st.current == Late)))
  }

  ghost predicate Inv(st: State) {
    && st.seqNo == SeqAfter(st.made)
    // Every entry is under the key of its own request, which is being made and not answered,
    // or was abandoned.
    && (forall k | k in st.pending :: EntryOk(st, k))
    && (st.current == Waiting(None) ==> CurrentKey(st) in st.pending && st.pending[CurrentKey(st)] == st.made)
    && (st.current.Waiting? && st.current.answer.Some? ==> Carries(st.current.answer.value, st.made))
    && (st.current != Idle ==> st.made >= 1 && st.made !in st.ends && st.made !in st.abandoned)
    && (forall n | n in st.abandoned :: 1 <= n <= st.made && n !in st.ends)
    && (forall n | n in st.ends :: 1 <= n <= st.made && (st.ends[n].Answered? ==> Carries(st.ends[n].payload, n)))
  }

  lemma {:induction false} EveryRunKeepsInv(render: Value -> string, trace: seq<Event>)
    requires IsRun(render, trace)
    ensures Inv(After(render, trace))
    decreases |trace|
  {
    if trace != [] {
      EveryRunKeepsInv(render, trace[..|trace| - 1]);
      StepKeepsInv(render, After(render, trace[..|trace| - 1]), trace[|trace| - 1]);
    }
  }

  lemma StepKeepsInv(render: Value -> string, st: State, e: Event)
    requires Inv(st) && Enabled(st, e)
    ensures Inv(Next(render, st, e))
  {
    match e {
      case Arrive(payload) => ArrivalKeepsInv(render, st, payload);
      case Request => RequestKeepsInv(render, st);
      case Abandon => AbandonKeepsInv(render, st);
      case Receive => EndKeepsInv(st, st.pending, Answered(st.current.answer.value));
      case Expire =>
        forall k | k in st.pending ensures EntryOk(st.(current := Late), k) {
          assert EntryOk(st, k);
        }
      case _ => EndKeepsInv(st, st.pending - {CurrentKey(st)}, Failed);
    }
  }

  lemma RequestKeepsInv(render: Value -> string, st: State)
    requires Inv(st) && Enabled(st, Request)
    ensures Inv(Next(render, st, Request))
  {
    var st' := Next(render, st, Request);
    forall k | k in st'.pending ensures EntryOk(st', k) {
      if k != CurrentKey(st') {
        assert EntryOk(st, k);
      }
    }
  }

  lemma AbandonKeepsInv(render: Value -> string, st: State)
    requires Inv(st) && Enabled(st, Abandon)
    ensures Inv(Next(render, st, Abandon))
  {
    var st' := Next(render, st, Abandon);
    forall k | k in st'.pending ensures EntryOk(st', k) {
      assert EntryOk(st, k);
    }
  }

  /** A request that ends has no entry left. */
  lemma EndKeepsInv(st: State, pending: map<string, nat>, end: End)
    requires Inv(st) && st.current != Idle
    requires pending == st.pending - {CurrentKey(st)} ||
             (pending == st.pending && st.current.Waiting? && st.current.answer.Some?)
    requires end.Answered? ==> Carries(end.payload, st.made)
    ensures Inv(Finish(st.(pending := pending), end))
  {
    var st' := Finish(st.(pending := pending), end);
    forall k | k in st'.pending ensures EntryOk(st', k) {
      assert EntryOk(st, k);
    }
  }

  lemma ArrivalKeepsInv(render: Value -> string, st: State, payload: Value)
    requires Inv(st)
    ensures Inv(Arrived(render, st, payload))
  {
    var st', key := Arrived(render, st, payload), KeyFromEnvelope(render, payload);
    if key.Some? && key.value in st.pending {
      assert EntryOk(st, key.value);
      StringKeyInjective(render, IdOf(st.pending[key.value]), payload.Get("id").value);
    }
    forall k | k in st'.pending ensures EntryOk(st', k) {
      assert EntryOk(st, k);
    }
  }

  /** The payload a request returns carries the id of that very request; so an answer to any
      other request, however late, never completes it while ids are still fresh. */
  lemma AnswersAreNotMisattributed(render: Value -> string, trace: seq<Event>, n: nat, other: nat)
    requires IsRun(render, trace)
    ensures var ends := After(render, trace).ends;
            n in ends && ends[n].Answered? ==>
              && Carries(ends[n].payload, n)
              && (Carries(ends[n].payload, other) <==> other == n || (n >= U64_MAX && other >= U64_MAX))
  {
    EveryRunKeepsInv(render, trace);
    IdsDistinctIff(n, other);
  }

  /** An answer that carries the id of the request being made is what that request returns. */
  lemma AnswerIsReturned(render: Value -> string, trace: seq<Event>, payload: Value)
    requires IsRun(render, trace) && After(render, trace).current == Waiting(None)
    requires payload.Get("id") == Some(Str("tool-api-" + PrintNat(After(render, trace).seqNo)))
    ensures IsRun(render, trace + [Arrive(payload)] + [Receive])
    ensures var st, st' := After(render, trace), After(render, trace + [Arrive(payload)] + [Receive]);
            && st'.current == Idle && st'.made == st.made
            && st.made in st'.ends && st'.ends[st.made] == Answered(payload)
  {
    EveryRunKeepsInv(render, trace);
    ArrivalAnswers(render, After(render, trace), payload);
    Extend(render, trace, Arrive(payload));
    Extend(render, trace + [Arrive(payload)], Receive);
  }

  lemma ArrivalAnswers(render: Value -> string, st: State, payload: Value)
    requires Inv(st) && st.current == Waiting(None)
    requires payload.Get("id") == Some(Str("tool-api-" + PrintNat(st.seqNo)))
    ensures var st' := Arrived(render, st, payload);
            st'.current == Waiting(Some(payload)) && st'.made == st.made && st'.ends == st.ends
  {
  }

  lemma Extend(render: Value -> string, trace: seq<Event>, e: Event)
    requires IsRun(render, trace) && Enabled(After(render, trace), e)
    ensures IsRun(render, trace + [e]) && After(render, trace + [e]) == Next(render, After(render, trace), e)
  {
    assert (trace + [e])[..|trace|] == trace;
  }

  /** Between requests the table holds entries of abandoned requests at most, and is empty if
      there are none. A late answer can take away such an entry and changes nothing else. */
  lemma LateAnswersFindNothing(render: Value -> string, trace: seq<Event>, payload: Value)
    requires IsRun(render, trace) && After(render, trace).current == Idle
    ensures var st := After(render, trace);
            && (forall k | k in st.pending :: st.pending[k] in st.abandoned)
            && (st.abandoned == {} ==> st.pending == map[])
            && Arrived(render, st, payload).(pending := st.pending) == st
  {
    var st := After(render, trace);
    EveryRunKeepsInv(render, trace);
    forall k | k in st.pending ensures st.pending[k] in st.abandoned {
      assert EntryOk(st, k);
    }
  }

  // ---- the tool catalogue ----

  datatype Tool = Tool(name: string, description: Option<string>, inputSchema: Value)

  /** The last tool of that name, as later entries replace earlier ones. */
  function LastNamed(tools: seq<Tool>, name: string): Option<Tool> {
    if tools == [] then None
    else if tools[|tools| - 1].name == name then Some(tools[|tools| - 1])
    else LastNamed(tools[..|tools| - 1], name)
  }

  /** A name is found exactly when some tool has it, and then the tool is the last of them. */
  lemma {:induction false} LastNamedIff(tools: seq<Tool>, name: string, tool: Tool)
    ensures LastNamed(tools, name) == Some(tool) <==>
            exists i :: 0 <= i < |tools| && tools[i] == tool && tool.name == name &&
                        forall j | i < j < |tools| :: tools[j].name != name
    decreases |tools|
  {
    if tools != [] {
      var n := |tools| - 1;
      var past := tools[..n];
      LastNamedIff(past, name, tool);
      if tools[n].name == name {
        if tools[n] == tool {
          assert tools[n] == tool && tool.name == name;
        }
      } else {
        assert forall j | 0 <= j < n :: past[j] == tools[j];
        if i :| 0 <= i < n && past[i] == tool && tool.name == name && forall j | i < j < n :: past[j].name != name {
          assert tools[i] == tool;
        }
      }
    }
  }

  ghost predicate Indexes(byName: map<string, Tool>, tools: seq<Tool>) {
    forall name :: LastNamed(tools, name) == if name in byName then Some(byName[name]) else None
  }

  class ClientState {
    var requestSeq: nat
    var tools: seq<Tool>
    var toolsByName: map<string, Tool>

    ghost predicate Valid()
      reads this
    {
      Indexes(toolsByName, tools)
    }

    constructor ()
      ensures Valid() && requestSeq == 0 && tools == []
    {
      requestSeq, tools, toolsByName := 0, [], map[];
    }

    method NextRequestId() returns (id: string)
      modifies this`requestSeq
      ensures requestSeq == NextSeq(old(requestSeq)) && id == RequestId(requestSeq)
      ensures id == "tool-api-" + PrintNat(requestSeq)
    {
      if requestSeq < U64_MAX {
        requestSeq := requestSeq + 1;
      } else {
        requestSeq := U64_MAX;
      }
      id := "tool-api-" + PrintNat(requestSeq);
    }

    method ReplaceTools(tools: seq<Tool>)
      modifies this`tools, this`toolsByName
      ensures Valid() && this.tools == tools
    {
      var byName: map<string, Tool> := map[];
      for i := 0 to |tools|
        invariant Indexes(byName, tools[..i])
      {
        assert tools[..i + 1][..i] == tools[..i];
        byName := byName[tools[i].name := tools[i]];
      }
      assert tools[..|tools|] == tools;
      this.tools := tools;
      toolsByName := byName;
    }

    /** A tool is found exactly when the catalogue has one of that name, and then the last. */
    method ResolveTool(name: string) returns (r: Option<Tool>)
      requires Valid()
      ensures r == LastNamed(tools, name)
    {
      r := if name in toolsByName then Some(toolsByName[name]) else None;
    }
  }
}
