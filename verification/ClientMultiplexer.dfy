/** Many clients sharing one child over WebSocket or gRPC: connections, client messages, the
    routing loop over the child's output and its broadcasts, interleaved in any order
    (rust/src/gateways/stdio_to_ws.rs, rust/src/gateways/stdio_to_grpc.rs). The sequence
    number is the one gRPC puts in its envelopes; WebSocket delivers the same bodies in the
    same order without it. */
module ClientMultiplexer {
  import opened Json
  import opened Decimal
  import opened IdCodec

  /** `tagged` tells an answer addressed by its id from a broadcast. */
  datatype Envelope = Envelope(body: Value, number: nat, tagged: bool)

  /** The routing loop between two receives, before a targeted send, or part way through the
      senders it copied for a broadcast. */
  datatype Router =
    | Ready
    | Sending(target: ClientId, env: Envelope)
    | Fanout(env: Envelope, snapshot: set<ClientId>, todo: seq<ClientId>, dead: seq<ClientId>)

  /** `clients` is the shared map, `listening` the clients whose receiver is still there,
      `queues` everything ever put on a client's channel. */
  datatype State = State(
    clients: set<ClientId>,
    listening: set<ClientId>,
    queues: map<ClientId, seq<Envelope>>,
    toChild: seq<Value>,
    outputs: seq<Value>,
    seqNo: nat,
    router: Router)

  /** `order` is the order in which the map yields its clients. */
  datatype Event =
    | Connect(c: ClientId)
    | StopListening(c: ClientId)
    | Disconnect(c: ClientId)
    | ClientSend(c: ClientId, msg: Value)
    | Output(msg: Value, order: seq<ClientId>)
    | DeliverTarget
    | DeliverNext
    | Finish

  const START := State({}, {}, map[], [], [], 0, Ready)

  /** What the child is sent for a client's message. */
  function Rewrite(render: Value -> string, c: ClientId, msg: Value): Value {
    match msg.Get("id")
    case Some(id) => msg.With("id", PrefixId(render, c, id))
    case None => msg
  }

  /** What a client is sent for the child's message. */
  function Outgoing(msg: Value): Value {
    match StripPrefixedId(msg)
    case Some((_, raw)) => msg.With("id", raw)
    case None => msg
  }

  function RemoveAll(clients: set<ClientId>, dead: seq<ClientId>): set<ClientId> {
    clients - set c | c in dead
  }

  /** The map of clients behind its lock. */
  class ClientTable {
    var clients: set<ClientId>

    constructor ()
      ensures clients == {}
    {
      clients := {};
    }

    method Insert(id: ClientId)
      modifies this
      ensures clients == old(clients) + {id}
    {
      clients := clients + {id};
    }

    method Remove(id: ClientId)
      modifies this
      ensures clients == RemoveAll(old(clients), [id])
    {
      clients := clients - {id};
    }

    method Snapshot() returns (senders: seq<ClientId>)
      ensures (set c | c in senders) == clients && |senders| == |clients|
    {
      senders := [];
      var rest := clients;
      while rest != {}
        invariant rest <= clients && (set c | c in senders) == clients - rest
        invariant |senders| + |rest| == |clients|
        decreases rest
      {
        var id :| id in rest;
        assert (set c | c in senders + [id]) == (set c | c in senders) + {id};
        senders := senders + [id];
        rest := rest - {id};
      }
    }

    method Sweep(dead: seq<ClientId>)
      modifies this
      ensures clients == RemoveAll(old(clients), dead)
    {
      for i := 0 to |dead|
        invariant clients == RemoveAll(old(clients), dead[..i])
      {
        assert dead[..i + 1] == dead[..i] + [dead[i]];
        clients := clients - {dead[i]};
      }
      assert dead[..|dead|] == dead;
    }
  }

  // ---- steps ----

  predicate NoDuplicates(s: seq<ClientId>) {
    forall i, j | 0 <= i < j < |s| :: s[i] != s[j]
  }

  predicate Enabled(st: State, e: Event) {
    match e
    case Connect(c) => c !in st.queues && NoColon(c)
    case StopListening(c) => c in st.queues
    case Disconnect(c) => c in st.queues
    case ClientSend(c, _) => c in st.queues
    case Output(msg, order) => st.router == Ready && NoDuplicates(order) && (set c | c in order) == st.clients
    case DeliverTarget => st.router.Sending?
    case DeliverNext => st.router.Fanout? && st.router.todo != []
    case Finish => st.router.Fanout? && st.router.todo == []
  }

  function Push(st: State, c: ClientId, env: Envelope): State {
    if c in st.queues then st.(queues := st.queues[c := st.queues[c] + [env]]) else st
  }

  function Next(render: Value -> string, st: State, e: Event): State
    requires Enabled(st, e)
  {
    match e
    case Connect(c) =>
      st.(clients := st.clients + {c}, listening := st.listening + {c}, queues := st.queues[c := []])
    case StopListening(c) => st.(listening := st.listening - {c})
    case Disconnect(c) => st.(clients := RemoveAll(st.clients, [c]))
    case ClientSend(c, msg) => st.(toChild := st.toChild + [Rewrite(render, c, msg)])
    case Output(msg, order) =>
      var env := Envelope(Outgoing(msg), st.seqNo + 1, StripPrefixedId(msg).Some?);
      var st' := st.(seqNo := st.seqNo + 1, outputs := st.outputs + [msg]);
      (match StripPrefixedId(msg)
       case Some((target, _)) => if target in st.clients then st'.(router := Sending(target, env)) else st'
       case None => st'.(router := Fanout(env, st.clients, order, [])))
    case DeliverTarget =>
      var c := st.router.target;
      if c in st.listening then Push(st, c, st.router.env).(router := Ready)
      else st.(clients := RemoveAll(st.clients, [c]), router := Ready)
    case DeliverNext =>
      var Fanout(env, snapshot, todo, dead) := st.router;
      if todo[0] in st.listening then Push(st, todo[0], env).(router := Fanout(env, snapshot, todo[1..], dead))
      else st.(router := Fanout(env, snapshot, todo[1..], dead + [todo[0]]))
    case Finish => st.(clients := RemoveAll(st.clients, st.router.dead), router := Ready)
  }

  predicate IsRun(render: Value -> string, trace: seq<Event>)
    decreases |trace|, 1
  {
    trace == [] ||
    (IsRun(render, trace[..|trace| - 1]) && Enabled(After(render, trace[..|trace| - 1]), trace[|trace| - 1]))
  }

  function After(render: Value -> string, trace: seq<Event>): State
    requires IsRun(render, trace)
    decreases |trace|, 2
  {
    if trace == [] then START
    else Next(render, After(render, trace[..|trace| - 1]), trace[|trace| - 1])
  }

  // ---- routing ----

  /** The envelope is the child's output number `number`: addressed to c by its id, which is
      restored, or without such an id and unchanged. */
  ghost predicate Addressed(outputs: seq<Value>, c: ClientId, env: Envelope) {
    && 1 <= env.number <= |outputs|
    && var msg := outputs[env.number - 1];
       match StripPrefixedId(msg)
       case Some((target, raw)) => env.tagged && target == c && env.body == msg.With("id", raw)
       case None => !env.tagged && env.body == msg
  }

  ghost predicate QueueOk(st: State, c: ClientId, bound: int)
    requires c in st.queues
  {
    var q := st.queues[c];
    && (forall i | 0 <= i < |q| :: Addressed(st.outputs, c, q[i]) && q[i].number <= bound)
    && (forall i, j | 0 <= i < j < |q| :: q[i].number < q[j].number)
  }

  /** The current output is still to be put on c's channel. */
  predicate Owed(r: Router, c: ClientId) {
    (r.Sending? && r.target == c) || (r.Fanout? && c in r.todo)
  }

  function Bound(st: State, c: ClientId): int {
    st.seqNo - if Owed(st.router, c) then 1 else 0
  }

  /** Every client's channel holds outputs of the child, each at most once and in the child's
      order; none that is addressed to another client. */
  ghost predicate QueuesOk(st: State) {
    forall c | c in st.queues :: NoColon(c) && QueueOk(st, c, Bound(st, c))
  }

  ghost predicate RouterOk(st: State) {
    match st.router
    case Ready => true
    case Sending(target, env) =>
      target in st.queues && Addressed(st.outputs, target, env) && env.number == st.seqNo
    case Fanout(env, snapshot, todo, dead) =>
      && env.number == st.seqNo && NoDuplicates(todo) && snapshot <= st.queues.Keys
      && !env.tagged && (forall c :: Addressed(st.outputs, c, env))
      && (forall i | 0 <= i < |todo| :: todo[i] in snapshot)
      && (forall c | c in snapshot :: c in todo || c in dead || env in st.queues[c])
      && (forall c | c in dead :: c in st.queues && c !in st.listening)
  }

  ghost predicate Inv(st: State) {
    && st.seqNo == |st.outputs|
    && st.clients <= st.queues.Keys && st.listening <= st.queues.Keys
    && QueuesOk(st) && RouterOk(st)
  }

  lemma {:induction false} EveryRunKeepsInv(render: Value -> string, trace: seq<Event>)
    requires IsRun(render, trace)
    ensures Inv(After(render, trace))
    decreases |trace|
  {
    if trace != [] {
      var past := trace[..|trace| - 1];
      EveryRunKeepsInv(render, past);
      StepKeepsInv(render, After(render, past), trace[|trace| - 1]);
    }
  }

  lemma StepKeepsInv(render: Value -> string, st: State, e: Event)
    requires Inv(st) && Enabled(st, e)
    ensures Inv(Next(render, st, e))
  {
    match e {
      case Output(msg, order) => OutputKeepsInv(render, st, msg, order);
      case DeliverTarget => DeliverTargetKeepsInv(render, st);
      case DeliverNext => DeliverNextKeepsInv(render, st);
      case Finish => SameQueues(st, Next(render, st, e));
      case Connect(c) => ConnectKeepsInv(render, st, c);
      case _ => SameQueues(st, Next(render, st, e));
    }
  }

  lemma SameQueues(st: State, st': State)
    requires QueuesOk(st) && st'.queues == st.queues && st'.outputs == st.outputs && st'.seqNo == st.seqNo
    requires st'.router == st.router || forall c :: !Owed(st.router, c) && !Owed(st'.router, c)
    ensures QueuesOk(st')
  {
    forall c | c in st'.queues ensures NoColon(c) && QueueOk(st', c, Bound(st', c)) {
      assert QueueOk(st, c, Bound(st, c));
    }
  }

  lemma ConnectKeepsInv(render: Value -> string, st: State, c: ClientId)
    requires Inv(st) && Enabled(st, Connect(c))
    ensures Inv(Next(render, st, Connect(c)))
  {
    var st' := Next(render, st, Connect(c));
    forall c' | c' in st'.queues ensures NoColon(c') && QueueOk(st', c', Bound(st', c')) {
      if c' != c {
        assert QueueOk(st, c', Bound(st, c'));
      }
    }
  }

  lemma OutputKeepsInv(render: Value -> string, st: State, msg: Value, order: seq<ClientId>)
    requires Inv(st) && Enabled(st, Output(msg, order))
    ensures Inv(Next(render, st, Output(msg, order)))
  {
    var st' := Next(render, st, Output(msg, order));
    forall c | c in st'.queues ensures NoColon(c) && QueueOk(st', c, Bound(st', c)) {
      assert QueueOk(st, c, st.seqNo);
      forall i | 0 <= i < |st.queues[c]| ensures Addressed(st'.outputs, c, st.queues[c][i]) {
        assert Addressed(st.outputs, c, st.queues[c][i]);
      }
    }
    assert forall c | c in order :: c in (set c' | c' in order);
    assert forall c | c in (set c' | c' in order) :: c in order;
    assert st'.outputs[st'.seqNo - 1] == msg;
  }

  lemma DeliverTargetKeepsInv(render: Value -> string, st: State)
    requires Inv(st) && Enabled(st, DeliverTarget)
    ensures Inv(Next(render, st, DeliverTarget))
  {
    var st' := Next(render, st, DeliverTarget);
    var Sending(target, env) := st.router;
    assert QueueOk(st, target, Bound(st, target));
    PushKeepsQueues(st, target, env);
    forall c | c in st'.queues ensures NoColon(c) && QueueOk(st', c, Bound(st', c)) {
      assert QueueOk(st, c, Bound(st, c));
    }
  }

  lemma PushKeepsQueues(st: State, c: ClientId, env: Envelope)
    requires c in st.queues && QueueOk(st, c, st.seqNo - 1)
    requires Addressed(st.outputs, c, env) && env.number == st.seqNo
    ensures QueueOk(Push(st, c, env), c, st.seqNo)
    ensures env in Push(st, c, env).queues[c]
    ensures forall e | e in st.queues[c] :: e in Push(st, c, env).queues[c]
  {
    var q := Push(st, c, env).queues[c];
    assert q[|q| - 1] == env;
    forall i | 0 <= i < |q| ensures Addressed(st.outputs, c, q[i]) && q[i].number <= st.seqNo {
    }
  }

  lemma DeliverNextKeepsInv(render: Value -> string, st: State)
    requires Inv(st) && Enabled(st, DeliverNext)
    ensures Inv(Next(render, st, DeliverNext))
  {
    FanoutKeepsQueues(render, st);
    FanoutKeepsRouter(render, st);
  }

  lemma FanoutKeepsQueues(render: Value -> string, st: State)
    requires Inv(st) && Enabled(st, DeliverNext)
    ensures QueuesOk(Next(render, st, DeliverNext))
  {
    var Fanout(env, snapshot, todo, dead) := st.router;
    var st' := Next(render, st, DeliverNext);
    var c := todo[0];
    assert c in snapshot && c !in todo[1..];
    assert QueueOk(st, c, Bound(st, c));
    PushKeepsQueues(st, c, env);
    forall c' | c' in st'.queues ensures NoColon(c') && QueueOk(st', c', Bound(st', c')) {
      assert QueueOk(st, c', Bound(st, c'));
      if c' != c {
        assert Owed(st.router, c') <==> Owed(st'.router, c');
      }
    }
  }

  lemma FanoutKeepsRouter(render: Value -> string, st: State)
    requires Inv(st) && Enabled(st, DeliverNext)
    ensures RouterOk(Next(render, st, DeliverNext))
  {
    var Fanout(env, snapshot, todo, dead) := st.router;
    var st' := Next(render, st, DeliverNext);
    var c := todo[0];
    forall c' | c' in snapshot ensures c' in st'.router.todo || c' in st'.router.dead || env in st'.queues[c'] {
      if c' == c {
        if c in st.listening {
          assert st'.queues[c][|st.queues[c]|] == env;
        } else {
          assert st'.router.dead[|dead|] == c;
        }
      } else if env in st.queues[c'] {
      } else if c' in todo {
        assert c' in todo[1..];
      }
    }
  }

  /** No crossing: what is on a client's channel is an output of the child addressed to that
      client by its id, with the client's own id restored, or an output that names no client.
      Each output is there at most once, and they are in the order the child wrote them. */
  lemma NoCrossing(render: Value -> string, trace: seq<Event>, c: ClientId, i: nat)
    requires IsRun(render, trace) && c in After(render, trace).queues && i < |After(render, trace).queues[c]|
    ensures var st := After(render, trace);
            && Addressed(st.outputs, c, st.queues[c][i])
            && forall j | 0 <= j < |st.queues[c]| && j != i ::
                 && st.queues[c][j].number != st.queues[c][i].number
                 && (st.queues[c][j].number < st.queues[c][i].number <==> j < i)
  {
    EveryRunKeepsInv(render, trace);
    var st := After(render, trace);
    assert QueueOk(st, c, Bound(st, c));
  }

  // ---- what must be received ----

  /** Output number n was taken while c was connected, and is for c: addressed to it, or to
      nobody. */
  predicate Due(render: Value -> string, trace: seq<Event>, n: nat, c: ClientId)
    requires IsRun(render, trace)
    decreases |trace|
  {
    trace != [] &&
    var past, e := trace[..|trace| - 1], trace[|trace| - 1];
    || Due(render, past, n, c)
    || (e.Output? && n == |After(render, past).outputs| + 1 && c in After(render, past).clients && IsFor(e.msg, c))
  }

  predicate IsFor(msg: Value, c: ClientId) {
    match StripPrefixedId(msg) case Some((target, _)) => target == c case None => true
  }

  /** The output is on c's channel, or the router is about to put it there, or c has stopped
      listening. */
  predicate Served(st: State, n: nat, c: ClientId) {
    && c in st.queues
    && (|| c !in st.listening
        || (n == st.seqNo && Owed(st.router, c))
        || exists i :: 0 <= i < |st.queues[c]| && st.queues[c][i].number == n)
  }

  lemma {:induction false} DueIsServed(render: Value -> string, trace: seq<Event>, n: nat, c: ClientId)
    requires IsRun(render, trace) && Due(render, trace, n, c)
    ensures Served(After(render, trace), n, c)
    decreases |trace|
  {
    var past, e := trace[..|trace| - 1], trace[|trace| - 1];
    EveryRunKeepsInv(render, past);
    if Due(render, past, n, c) {
      DueIsServed(render, past, n, c);
      ServedStep(render, After(render, past), e, n, c);
    } else {
      OutputIsOwed(render, After(render, past), e, c);
    }
  }

  lemma OutputIsOwed(render: Value -> string, st: State, e: Event, c: ClientId)
    requires Inv(st) && Enabled(st, e) && e.Output? && c in st.clients && IsFor(e.msg, c)
    ensures var st' := Next(render, st, e);
            Owed(st'.router, c) && st'.seqNo == |st.outputs| + 1 && c in st'.queues
  {
    assert c in set c' | c' in e.order;
  }

  lemma ServedStep(render: Value -> string, st: State, e: Event, n: nat, c: ClientId)
    requires Inv(st) && Enabled(st, e) && Served(st, n, c)
    ensures Served(Next(render, st, e), n, c)
  {
    match e {
      case DeliverTarget => PushedIsServed(st, st.router.target, st.router.env, n, c);
      case DeliverNext => PushedIsServed(st, st.router.todo[0], st.router.env, n, c);
      case _ =>
    }
  }

  /** A push keeps what is on the channels, and puts the current output on one of them. */
  lemma PushedIsServed(st: State, target: ClientId, env: Envelope, n: nat, c: ClientId)
    requires target in st.queues && c in st.queues
    ensures var q, q' := st.queues[c], Push(st, target, env).queues[c];
            && |q| <= |q'| && (forall i | 0 <= i < |q| :: q'[i] == q[i])
            && (target == c ==> |q'| == |q| + 1 && q'[|q|] == env)
  {
  }

  /** Once the router has moved on, a client that still listens has every output that was for
      it when it was connected: the envelope on its channel has that number, and its body is
      the child's message with the client's own id restored, or as it was. */
  lemma DueIsReceived(render: Value -> string, trace: seq<Event>, n: nat, c: ClientId) returns (i: nat)
    requires IsRun(render, trace) && Due(render, trace, n, c)
    requires After(render, trace).router == Ready && c in After(render, trace).listening
    ensures var st := After(render, trace);
            && c in st.queues && i < |st.queues[c]| && st.queues[c][i].number == n
            && Addressed(st.outputs, c, st.queues[c][i])
  {
    var st := After(render, trace);
    DueIsServed(render, trace, n, c);
    i :| 0 <= i < |st.queues[c]| && st.queues[c][i].number == n;
    NoCrossing(render, trace, c, i);
  }

  /** An answer addressed to a connected client goes to it next, and to nobody else. */
  lemma AnswerIsDelivered(render: Value -> string, trace: seq<Event>, msg: Value, order: seq<ClientId>, c: ClientId,
                          raw: Value)
    requires IsRun(render, trace + [Output(msg, order)]) && StripPrefixedId(msg) == Some((c, raw))
    requires IsRun(render, trace) && c in After(render, trace).clients && c in After(render, trace).listening
    ensures IsRun(render, trace + [Output(msg, order)] + [DeliverTarget])
    ensures var st, st' := After(render, trace), After(render, trace + [Output(msg, order)] + [DeliverTarget]);
            && c in st.queues && st'.router == Ready
            && st'.queues == st.queues[c := st.queues[c] + [Envelope(msg.With("id", raw), |st.outputs| + 1, true)]]
  {
    var taken := trace + [Output(msg, order)];
    assert taken[..|trace|] == trace;
    EveryRunKeepsInv(render, trace);
    AnswerStep(render, After(render, trace), msg, order, c, raw);
    assert (taken + [DeliverTarget])[..|taken|] == taken;
  }

  lemma AnswerStep(render: Value -> string, st: State, msg: Value, order: seq<ClientId>, c: ClientId, raw: Value)
    requires Inv(st) && Enabled(st, Output(msg, order)) && StripPrefixedId(msg) == Some((c, raw))
    requires c in st.clients && c in st.listening
    ensures c in st.queues && Enabled(Next(render, st, Output(msg, order)), DeliverTarget)
    ensures var st' := Next(render, Next(render, st, Output(msg, order)), DeliverTarget);
            && st'.router == Ready
            && st'.queues == st.queues[c := st.queues[c] + [Envelope(msg.With("id", raw), |st.outputs| + 1, true)]]
  {
  }

  // ---- who is connected ----

  predicate Connected(trace: seq<Event>, c: ClientId) {
    trace != [] && (Connected(trace[..|trace| - 1], c) || trace[|trace| - 1] == Connect(c))
  }

  predicate Gone(trace: seq<Event>, c: ClientId) {
    trace != [] && (Gone(trace[..|trace| - 1], c) || trace[|trace| - 1] == Disconnect(c))
  }

  predicate Deaf(trace: seq<Event>, c: ClientId) {
    trace != [] && (Deaf(trace[..|trace| - 1], c) || trace[|trace| - 1] == StopListening(c))
  }

  /** The map holds only clients that have connected and not disconnected, and all of those
      that have not stopped listening. */
  lemma {:induction false} ClientsAreConnected(render: Value -> string, trace: seq<Event>, c: ClientId)
    requires IsRun(render, trace)
    ensures var st := After(render, trace);
            && (c in st.queues <==> Connected(trace, c))
            && (c in st.listening <==> Connected(trace, c) && !Deaf(trace, c))
            && (c in st.clients ==> Connected(trace, c) && !Gone(trace, c))
            && (Connected(trace, c) && !Gone(trace, c) && !Deaf(trace, c) ==> c in st.clients)
            && (Gone(trace, c) || Deaf(trace, c) ==> Connected(trace, c))
    decreases |trace|
  {
    if trace != [] {
      var past, e := trace[..|trace| - 1], trace[|trace| - 1];
      ClientsAreConnected(render, past, c);
      EveryRunKeepsInv(render, past);
      ClientsStep(render, After(render, past), e, c);
    }
  }

  lemma ClientsStep(render: Value -> string, st: State, e: Event, c: ClientId)
    requires Inv(st) && Enabled(st, e)
    ensures var st' := Next(render, st, e);
            && (c in st'.queues <==> c in st.queues || e == Connect(c))
            && (c in st'.listening <==> (c in st.listening && e != StopListening(c)) || e == Connect(c))
            && (c in st'.clients ==> (c in st.clients && e != Disconnect(c)) || e == Connect(c))
            && (e == Connect(c) || (c in st.clients && c in st.listening && e != Disconnect(c)) ==> c in st'.clients)
            && (e == Connect(c) ==> c !in st.queues)
            && (e == Disconnect(c) || e == StopListening(c) ==> c in st.queues)
  {
  }

  // ---- what the child is sent ----

  /** The child gets each client's message as it was, but for an id, which is tagged with the
      client. */
  lemma ChildGetsTheMessage(render: Value -> string, st: State, c: ClientId, msg: Value)
    requires Enabled(st, ClientSend(c, msg))
    ensures var st' := Next(render, st, ClientSend(c, msg));
            && |st'.toChild| == |st.toChild| + 1 && st'.toChild[..|st.toChild|] == st.toChild
            && var sent := st'.toChild[|st.toChild|];
               && (msg.Get("id") == None ==> sent == msg)
               && (msg.Get("id").Some? ==>
                   sent.Get("id") == Some(Str(c + ":" + RawText(render, msg.Get("id").value))))
               && forall k | k != "id" :: sent.Get(k) == msg.Get(k)
  {
  }

  /** When a broadcast ends, every client that was connected when it began and still listens
      has the message. */
  lemma BroadcastReachesEveryListener(render: Value -> string, trace: seq<Event>, c: ClientId)
    requires IsRun(render, trace + [Finish])
    ensures IsRun(render, trace) && After(render, trace).router.Fanout?
    ensures var st := After(render, trace);
            c in st.router.snapshot && c in st.listening ==> c in st.queues && st.router.env in st.queues[c]
  {
    assert (trace + [Finish])[..|trace|] == trace;
    EveryRunKeepsInv(render, trace);
  }

  // ---- answers and requests ----

  /** Messages whose id is the string x. */
  function CountId(msgs: seq<Value>, x: string): nat {
    if msgs == [] then 0
    else CountId(msgs[..|msgs| - 1], x) + if StringId(msgs[|msgs| - 1]) == Some(x) then 1 else 0
  }

  /** Messages whose id decodes to client c and id v. */
  function CountAnswers(msgs: seq<Value>, c: ClientId, v: Value): nat {
    if msgs == [] then 0
    else CountAnswers(msgs[..|msgs| - 1], c, v) +
         if StripPrefixedId(msgs[|msgs| - 1]) == Some((c, v)) then 1 else 0
  }

  /** Answers with id v that a client received. */
  function CountReceived(queue: seq<Envelope>, v: Value): nat {
    if queue == [] then 0
    else
      var env := queue[|queue| - 1];
      CountReceived(queue[..|queue| - 1], v) + if env.tagged && env.body.Get("id") == Some(v) then 1 else 0
  }

  /** Requests that client c made with an id that comes back as v. */
  function CountAsked(render: Value -> string, trace: seq<Event>, c: ClientId, v: Value): nat {
    if trace == [] then 0
    else
      CountAsked(render, trace[..|trace| - 1], c, v) + if Asks(render, trace[|trace| - 1], c, v) then 1 else 0
  }

  predicate Asks(render: Value -> string, e: Event, c: ClientId, v: Value) {
    && e.ClientSend? && e.c == c && e.msg.Get("id").Some?
    && DecodeRaw(RawText(render, e.msg.Get("id").value)) == v
  }

  /** Requests with id v that client c made. */
  function CountRequests(trace: seq<Event>, c: ClientId, v: Value): nat {
    if trace == [] then 0
    else CountRequests(trace[..|trace| - 1], c, v) + if SendsWith(trace[|trace| - 1], c, v) then 1 else 0
  }

  predicate SendsWith(e: Event, c: ClientId, id: Value) {
    e.ClientSend? && e.c == c && e.msg.Get("id") == Some(id)
  }

  /** The child answers with string ids it was sent, each no more often than it was sent. */
  ghost predicate FaithfulChild(st: State) {
    forall x :: CountId(st.outputs, x) <= CountId(st.toChild, x)
  }

  /** Client c uses only ids that survive the codec. */
  ghost predicate PlainIds(trace: seq<Event>, c: ClientId) {
    forall i | 0 <= i < |trace| && trace[i].ClientSend? && trace[i].c == c && trace[i].msg.Get("id").Some?
      :: Survives(trace[i].msg.Get("id").value)
  }

  /** With a child that answers each string id no more often than it was sent, a client
      receives no more answers with an id than the requests it has made whose id comes back as
      that one, whatever ids it and the other clients choose. */
  lemma AnswersMatchRequests(render: Value -> string, trace: seq<Event>, c: ClientId, v: Value)
    requires IsRun(render, trace) && c in After(render, trace).queues && FaithfulChild(After(render, trace))
    ensures CountReceived(After(render, trace).queues[c], v) <= CountAsked(render, trace, c, v)
  {
    var st := After(render, trace);
    ReceivedWereOutput(render, trace, c, v);
    AnswersWereSent(st.outputs, st.toChild, c, v);
    SentWereAsked(render, trace, c, v);
  }

  /** For a client that uses only ids that survive the codec, those are the requests it made
      with that very id. */
  lemma PlainIdsAreAnsweredAsSent(render: Value -> string, trace: seq<Event>, c: ClientId, v: Value)
    requires IsRun(render, trace) && c in After(render, trace).queues
    requires FaithfulChild(After(render, trace)) && PlainIds(trace, c)
    ensures CountReceived(After(render, trace).queues[c], v) <= CountRequests(trace, c, v)
  {
    AnswersMatchRequests(render, trace, c, v);
    PlainIdsAreAskedAsSent(render, trace, c, v);
  }

  lemma {:induction false} PlainIdsAreAskedAsSent(render: Value -> string, trace: seq<Event>, c: ClientId, v: Value)
    requires PlainIds(trace, c)
    ensures CountAsked(render, trace, c, v) == CountRequests(trace, c, v)
    decreases |trace|
  {
    if trace != [] {
      PlainIdsPrefix(trace, c);
      PlainIdsAreAskedAsSent(render, trace[..|trace| - 1], c, v);
      var e := trace[|trace| - 1];
      if e.ClientSend? && e.c == c && e.msg.Get("id").Some? {
        SurvivorsDecode(render, e.msg.Get("id").value);
      }
    }
  }

  lemma SurvivorsDecode(render: Value -> string, id: Value)
    requires Survives(id)
    ensures DecodeRaw(RawText(render, id)) == id
  {
    RoundTripIff(render, "", id);
  }

  /** Counting messages by what their ids decode to is monotone in the ids. */
  lemma {:induction false} AnswersWereSent(outputs: seq<Value>, sent: seq<Value>, c: ClientId, v: Value)
    requires forall x :: CountId(outputs, x) <= CountId(sent, x)
    ensures CountAnswers(outputs, c, v) <= CountAnswers(sent, c, v)
    decreases |outputs|
  {
    if outputs != [] {
      var last, rest := outputs[|outputs| - 1], outputs[..|outputs| - 1];
      if StringId(last).Some? {
        var id := StringId(last).value;
        assert CountId(sent, id) > 0;
        var others := Without(sent, id, c, v);
        forall x ensures CountId(rest, x) <= CountId(others, x) {
          assert CountId(outputs, x) == CountId(rest, x) + if StringId(last) == Some(x) then 1 else 0;
        }
        AnswersWereSent(rest, others, c, v);
      } else {
        forall x ensures CountId(rest, x) <= CountId(sent, x) {
          assert CountId(outputs, x) == CountId(rest, x);
        }
        AnswersWereSent(rest, sent, c, v);
      }
    }
  }

  /** The same messages but for one with that id. */
  lemma {:induction false} Without(msgs: seq<Value>, id: string, c: ClientId, v: Value) returns (others: seq<Value>)
    requires CountId(msgs, id) > 0
    ensures forall x :: CountId(msgs, x) == CountId(others, x) + if x == id then 1 else 0
    ensures CountAnswers(msgs, c, v) == CountAnswers(others, c, v) + if StripId(id) == Some((c, v)) then 1 else 0
    decreases |msgs|
  {
    var last, rest := msgs[|msgs| - 1], msgs[..|msgs| - 1];
    if StringId(last) == Some(id) {
      others := rest;
    } else {
      var fewer := Without(rest, id, c, v);
      others := fewer + [last];
      forall x ensures CountId(msgs, x) == CountId(others, x) + if x == id then 1 else 0 {
        IdPush(fewer, last, x);
      }
      AnswersPush(fewer, last, c, v);
    }
  }

  lemma IdPush(msgs: seq<Value>, msg: Value, x: string)
    ensures CountId(msgs + [msg], x) == CountId(msgs, x) + if StringId(msg) == Some(x) then 1 else 0
  {
    assert (msgs + [msg])[..|msgs|] == msgs;
  }

  /** What the child was sent under ids that decode to client c are c's own requests. */
  lemma {:induction false} SentWereAsked(render: Value -> string, trace: seq<Event>, c: ClientId, v: Value)
    requires IsRun(render, trace)
    ensures CountAnswers(After(render, trace).toChild, c, v) == CountAsked(render, trace, c, v)
    decreases |trace|
  {
    if trace != [] {
      SentWereAsked(render, trace[..|trace| - 1], c, v);
      EveryRunKeepsInv(render, trace[..|trace| - 1]);
      SentStep(render, After(render, trace[..|trace| - 1]), trace[|trace| - 1], c, v);
    }
  }

  lemma SentStep(render: Value -> string, st: State, e: Event, c: ClientId, v: Value)
    requires Inv(st) && Enabled(st, e)
    ensures CountAnswers(Next(render, st, e).toChild, c, v) ==
            CountAnswers(st.toChild, c, v) + if Asks(render, e, c, v) then 1 else 0
  {
    if e.ClientSend? {
      SentIsAsked(render, e, c, v);
      AnswersPush(st.toChild, Rewrite(render, e.c, e.msg), c, v);
    }
  }

  lemma SentIsAsked(render: Value -> string, e: Event, c: ClientId, v: Value)
    requires e.ClientSend? && NoColon(e.c)
    ensures StripPrefixedId(Rewrite(render, e.c, e.msg)) == Some((c, v)) <==> Asks(render, e, c, v)
  {
    if e.msg.Get("id").Some? {
      RoundTripIff(render, e.c, e.msg.Get("id").value);
    }
  }

  lemma {:induction false} ReceivedWereOutput(render: Value -> string, trace: seq<Event>, c: ClientId, v: Value)
    requires IsRun(render, trace)
    ensures Answered(After(render, trace), c, v) <= CountAnswers(After(render, trace).outputs, c, v)
    decreases |trace|
  {
    if trace != [] {
      var past := trace[..|trace| - 1];
      ReceivedWereOutput(render, past, c, v);
      EveryRunKeepsInv(render, past);
      AnsweredStep(render, After(render, past), trace[|trace| - 1], c, v);
    }
  }

  /** Answers with id v that c received, with the one the router is about to send it. */
  function Answered(st: State, c: ClientId, v: Value): nat {
    (if c in st.queues then CountReceived(st.queues[c], v) else 0) +
    (if st.router.Sending? && st.router.target == c && st.router.env.body.Get("id") == Some(v) then 1 else 0)
  }

  lemma AnsweredStep(render: Value -> string, st: State, e: Event, c: ClientId, v: Value)
    requires Inv(st) && Enabled(st, e)
    ensures var st' := Next(render, st, e);
            Answered(st', c, v) - CountAnswers(st'.outputs, c, v) <= Answered(st, c, v) - CountAnswers(st.outputs, c, v)
  {
    match e {
      case Output(msg, _) => OutputAnswered(render, st, e, c, v);
      case DeliverTarget => TargetAnswered(render, st, c, v);
      case DeliverNext =>
        if c in st.queues {
          ReceivedPush(st, st.router.todo[0], st.router.env, c, v);
        }
      case Connect(c') => assert CountReceived([], v) == 0;
      case _ =>
    }
  }

  lemma OutputAnswered(render: Value -> string, st: State, e: Event, c: ClientId, v: Value)
    requires Inv(st) && e.Output? && Enabled(st, e)
    ensures var st' := Next(render, st, e);
            Answered(st', c, v) - CountAnswers(st'.outputs, c, v) <= Answered(st, c, v) - CountAnswers(st.outputs, c, v)
  {
    AnswersPush(st.outputs, e.msg, c, v);
    OutputEffect(render, st, e);
  }

  lemma AnswersPush(msgs: seq<Value>, msg: Value, c: ClientId, v: Value)
    ensures CountAnswers(msgs + [msg], c, v) ==
            CountAnswers(msgs, c, v) + if StripPrefixedId(msg) == Some((c, v)) then 1 else 0
  {
    assert (msgs + [msg])[..|msgs|] == msgs;
  }

  lemma OutputEffect(render: Value -> string, st: State, e: Event)
    requires e.Output? && Enabled(st, e)
    ensures var st' := Next(render, st, e);
            && st'.queues == st.queues && st'.outputs == st.outputs + [e.msg]
            && (st'.router.Sending? ==>
                st'.router.env.body.Get("id").Some? &&
                StripPrefixedId(e.msg) == Some((st'.router.target, st'.router.env.body.Get("id").value)))
  {
  }

  lemma TargetAnswered(render: Value -> string, st: State, c: ClientId, v: Value)
    requires Inv(st) && Enabled(st, DeliverTarget)
    ensures Answered(Next(render, st, DeliverTarget), c, v) <= Answered(st, c, v)
    ensures Next(render, st, DeliverTarget).outputs == st.outputs
  {
    if c in st.queues {
      ReceivedPush(st, st.router.target, st.router.env, c, v);
    }
  }

  lemma ReceivedPush(st: State, target: ClientId, env: Envelope, c: ClientId, v: Value)
    requires target in st.queues && c in st.queues
    ensures CountReceived(Push(st, target, env).queues[c], v) ==
            CountReceived(st.queues[c], v) + if target == c && env.tagged && env.body.Get("id") == Some(v) then 1 else 0
  {
    assert (st.queues[target] + [env])[..|st.queues[target]|] == st.queues[target];
  }

  lemma PlainIdsPrefix(trace: seq<Event>, c: ClientId)
    requires trace != [] && PlainIds(trace, c)
    ensures PlainIds(trace[..|trace| - 1], c)
    ensures var e := trace[|trace| - 1];
            e.ClientSend? && e.c == c && e.msg.Get("id").Some? ==> Survives(e.msg.Get("id").value)
  {
    var past := trace[..|trace| - 1];
    assert forall i | 0 <= i < |past| :: past[i] == trace[i];
  }
}
