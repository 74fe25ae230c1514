/** The table of requests a session has sent to its child and not yet had answered
    (`Session::request` and `Session::start_routing` of
    rust/src/gateways/stdio_to_streamable_http.rs): callers, the child-output router,
    request timeouts and the cleanup tasks, interleaved in any order. */
module PendingRequests {
  import opened Json

  /** Identity of one call of `request`, and of the oneshot channel it waits on. */
  type Caller = nat

  const CAPACITY := 512

  /** The oneshot channel as its receiver sees it. */
  datatype Channel = Open | Sent(msg: Value) | Closed

  datatype Reply = Response(msg: Value) | Duplicate | TooMany | SendFailed | Cancelled | TimedOut

  /** `Expired` is the moment between the timeout and the removal that follows it: the
      receiver is already gone. `Leaving` is the moment between that removal, or the one after
      a cancellation, and the return, which aborts the cleanup task. */
  datatype Phase = Sending | Awaiting | Expired | Leaving(reply: Reply) | Returned(reply: Reply)

  /** The cleanup task of a call: an abort ends it while it is asleep, and may come too late for
      one that is past its sleep. */
  datatype Task = Asleep | Running | Gone

  /** How long a cleanup task sleeps and a request waits, in milliseconds. */
  const TIMEOUT := 30_000

  /** `since` is the time of registration, `sent` that from which the answer is waited for. */
  datatype Call = Call(id: Value, key: string, channel: Channel, phase: Phase, task: Task, since: nat, sent: nat)

  /** `inHand` is a sender the router has taken from the table and not yet used.
      `broadcasts`, `delivered` and `lost` record what became of every routed message. */
  datatype State = State(
    pending: map<string, Caller>,
    calls: map<Caller, Call>,
    inHand: Option<(Caller, Value)>,
    broadcasts: seq<Value>,
    delivered: seq<(Caller, Value)>,
    lost: seq<(Caller, Value)>,
    now: nat)

  /** A caller whose id is not a string registers under the text of the id, whatever it is. */
  datatype Event =
    | Register(c: Caller, id: Value, key: string)
    | SendOk(c: Caller)
    | SendFails(c: Caller)
    | Route(msg: Value)
    | Hand
    | Receive(c: Caller)
    | Cancel(c: Caller)
    | Expire(c: Caller)
    | GiveUp(c: Caller)
    | Leave(c: Caller)
    | Wake(c: Caller)
    | CleanupFires(c: Caller)
    | Tick(d: nat)

  const START := State(map[], map[], None, [], [], [], 0)

  // ---- the lock-held sections ----

  function Insert(pending: map<string, Caller>, key: string, c: Caller): (Option<Reply>, map<string, Caller>) {
    if key in pending then (Some(Duplicate), pending)
    else if |pending| >= CAPACITY then (Some(TooMany), pending)
    else (None, pending[key := c])
  }

  function Remove(pending: map<string, Caller>, key: string): (Option<Caller>, map<string, Caller>) {
    if key in pending then (Some(pending[key]), pending - {key}) else (None, pending)
  }

  /** Removal is by key: it drops the sender that is there, whoever it belongs to. */
  function Discard(st: State, key: string): State {
    var (found, rest) := Remove(st.pending, key);
    var st' := st.(pending := rest);
    match found
    case Some(c) =>
      if c in st.calls && st.calls[c].channel == Open then st'.(calls := st.calls[c := st.calls[c].(channel := Closed)])
      else st'
    case None => st'
  }

  /** The table behind its lock, with one method for each section that holds the lock. */
  class Session {
    var pending: map<string, Caller>

    constructor ()
      ensures pending == map[]
    {
      pending := map[];
    }

    method Add(id: string, tx: Caller) returns (refused: Option<Reply>)
      modifies this
      ensures (refused, pending) == Insert(old(pending), id, tx)
      ensures refused == if id in old(pending) then Some(Duplicate)
                         else if |old(pending)| >= 512 then Some(TooMany) else None
      ensures pending == if refused == None then old(pending)[id := tx] else old(pending)
    {
      if id in pending {
        return Some(Duplicate);
      }
      if |pending| >= CAPACITY {
        return Some(TooMany);
      }
      pending := pending[id := tx];
      refused := None;
    }

    /** Used by the router, which sends on what it gets, and by every clean-up path, which
        drops it. */
    method Take(id: string) returns (tx: Option<Caller>)
      modifies this
      ensures (tx, pending) == Remove(old(pending), id)
      ensures id in old(pending) ==> tx == Some(old(pending)[id])
      ensures tx.Some? <==> id in old(pending)
      ensures pending == old(pending) - {id}
    {
      if id in pending {
        tx := Some(pending[id]);
        pending := pending - {id};
      } else {
        tx := None;
        assert pending == old(pending) - {id};
      }
    }
  }

  // ---- steps ----

  predicate Enabled(st: State, e: Event) {
    match e
    case Register(c, id, key) => c !in st.calls && (id.Str? ==> key == id.s)
    case SendOk(c) => c in st.calls && st.calls[c].phase == Sending
    case SendFails(c) => c in st.calls && st.calls[c].phase == Sending
    case Route(_) => st.inHand == None
    case Hand => st.inHand.Some? && st.inHand.value.0 in st.calls
    case Receive(c) => c in st.calls && st.calls[c].phase == Awaiting && st.calls[c].channel.Sent?
    case Cancel(c) => c in st.calls && st.calls[c].phase == Awaiting && st.calls[c].channel == Closed
    case Expire(c) =>
      && c in st.calls && st.calls[c].phase == Awaiting && st.calls[c].channel == Open
      && st.now >= st.calls[c].sent + TIMEOUT
    case GiveUp(c) => c in st.calls && st.calls[c].phase == Expired
    case Leave(c) => c in st.calls && st.calls[c].phase.Leaving?
    case Wake(c) => c in st.calls && st.calls[c].task == Asleep && st.now >= st.calls[c].since + TIMEOUT
    case CleanupFires(c) => c in st.calls && st.calls[c].task == Running
    case Tick(_) => true
  }

  function Aborted(t: Task): Task {
    if t == Asleep then Gone else t
  }

  /** `request` returns: its cleanup task is aborted. */
  function Return(st: State, c: Caller, reply: Reply): State
    requires c in st.calls
  {
    st.(calls := st.calls[c := st.calls[c].(phase := Returned(reply), task := Aborted(st.calls[c].task))])
  }

  /** The removal after a cancellation or a timeout. */
  function Depart(st: State, c: Caller, reply: Reply): State
    requires c in st.calls
  {
    var st' := Discard(st, st.calls[c].key);
    st'.(calls := st'.calls[c := st'.calls[c].(phase := Leaving(reply))])
  }

  function Next(st: State, e: Event): State
    requires Enabled(st, e)
  {
    match e
    case Register(c, id, key) =>
      (match Insert(st.pending, key, c)
       case (Some(refusal), _) =>
         st.(calls := st.calls[c := Call(id, key, Closed, Returned(refusal), Gone, st.now, st.now)])
       case (None, table) =>
         st.(pending := table, calls := st.calls[c := Call(id, key, Open, Sending, Asleep, st.now, st.now)]))
    case SendOk(c) => st.(calls := st.calls[c := st.calls[c].(phase := Awaiting, sent := st.now)])
    case SendFails(c) => Return(Discard(st, st.calls[c].key), c, SendFailed)
    case Route(msg) =>
      (match StringId(msg)
       case Some(id) =>
         (match Remove(st.pending, id)
          case (Some(c), rest) => st.(pending := rest, inHand := Some((c, msg)))
          case (None, _) => st.(broadcasts := st.broadcasts + [msg]))
       case None => st.(broadcasts := st.broadcasts + [msg]))
    case Hand =>
      var (c, msg) := st.inHand.value;
      if st.calls[c].phase.Sending? || st.calls[c].phase.Awaiting? then
        st.(inHand := None, delivered := st.delivered + [(c, msg)],
            calls := st.calls[c := st.calls[c].(channel := Sent(msg))])
      else
        st.(inHand := None, lost := st.lost + [(c, msg)])
    case Receive(c) => Return(st, c, Response(st.calls[c].channel.msg))
    case Cancel(c) => Depart(st, c, Cancelled)
    case Expire(c) => st.(calls := st.calls[c := st.calls[c].(phase := Expired)])
    case GiveUp(c) => Depart(st, c, TimedOut)
    case Leave(c) => Return(st, c, st.calls[c].phase.reply)
    case Wake(c) => st.(calls := st.calls[c := st.calls[c].(task := Running)])
    case CleanupFires(c) =>
      var st' := Discard(st, st.calls[c].key);
      st'.(calls := st'.calls[c := st'.calls[c].(task := Gone)])
    case Tick(d) => st.(now := st.now + d)
  }

  // ---- runs ----

  predicate IsRun(trace: seq<Event>)
    decreases |trace|, 1
  {
    trace == [] || (IsRun(trace[..|trace| - 1]) && Enabled(After(trace[..|trace| - 1]), trace[|trace| - 1]))
  }

  function After(trace: seq<Event>): State
    requires IsRun(trace)
    decreases |trace|, 2
  {
    if trace == [] then START else Next(After(trace[..|trace| - 1]), trace[|trace| - 1])
  }

  function Routed(trace: seq<Event>): seq<Value> {
    if trace == [] then []
    else
      var e := trace[|trace| - 1];
      Routed(trace[..|trace| - 1]) + if e.Route? then [e.msg] else []
  }

  lemma Extend(trace: seq<Event>, e: Event)
    requires IsRun(trace) && Enabled(After(trace), e)
    ensures IsRun(trace + [e]) && After(trace + [e]) == Next(After(trace), e)
  {
    assert (trace + [e])[..|trace|] == trace;
  }

  // ---- what every step keeps ----

  predicate Live(p: Phase) {
    p.Sending? || p.Awaiting?
  }

  predicate Done(p: Phase) {
    p.Leaving? || p.Returned?
  }

  predicate TimingOut(p: Phase) {
    p == Expired || (Done(p) && p.reply == TimedOut)
  }

  /** One call, against the table and the router's hand. */
  ghost predicate CallOk(st: State, c: Caller)
    requires c in st.calls
  {
    var call := st.calls[c];
    && (call.id.Str? ==> call.key == call.id.s)
    && (call.channel.Sent? ==> StringId(call.channel.msg) == Some(call.key))
    && (Done(call.phase) && call.phase.reply.Response? ==> call.channel == Sent(call.phase.reply.msg))
    // An unanswered call that still listens can be reached: it is in the table or in hand.
    && (call.channel == Open && Live(call.phase) ==>
        (call.key in st.pending && st.pending[call.key] == c) || (st.inHand.Some? && st.inHand.value.0 == c))
    && (call.phase == Expired ==> !call.channel.Sent?)
    && (call.phase.Returned? ==> call.task != Asleep)
    // Neither the cleanup task nor the timeout comes early.
    && call.since <= call.sent <= st.now
    && (call.task == Running ==> st.now >= call.since + TIMEOUT)
    && (TimingOut(call.phase) ==> st.now >= call.sent + TIMEOUT)
  }

  ghost predicate Inv(st: State) {
    && |st.pending| <= CAPACITY
    && (forall k | k in st.pending :: EntryOk(st, k))
    && (forall c | c in st.calls :: CallOk(st, c))
    && (st.inHand.Some? ==>
        var (c, msg) := st.inHand.value;
        && c in st.calls && st.calls[c].channel == Open
        && StringId(msg) == Some(st.calls[c].key)
        && (forall k | k in st.pending :: st.pending[k] != c))
  }

  /** Every entry belongs to the call registered under its key, which has not returned and
      whose channel has neither been used nor closed. A call on its way out has none. */
  ghost predicate EntryOk(st: State, k: string)
    requires k in st.pending
  {
    var c := st.pending[k];
    c in st.calls && st.calls[c].key == k && st.calls[c].channel == Open && !Done(st.calls[c].phase)
  }

  lemma {:induction false} EveryRunKeepsInv(trace: seq<Event>)
    requires IsRun(trace)
    ensures Inv(After(trace))
    decreases |trace|
  {
    if trace != [] {
      var past := trace[..|trace| - 1];
      EveryRunKeepsInv(past);
      StepKeepsInv(After(past), trace[|trace| - 1]);
    }
  }

  lemma DiscardKeepsInv(st: State, key: string)
    requires Inv(st)
    ensures Inv(Discard(st, key))
    ensures key !in Discard(st, key).pending
    ensures Discard(st, key).calls.Keys == st.calls.Keys
    ensures forall c | c in st.calls :: Discard(st, key).calls[c].(channel := Closed) == st.calls[c].(channel := Closed)
  {
    var st' := Discard(st, key);
    assert key in st.pending ==> EntryOk(st, key);
    forall k | k in st'.pending ensures EntryOk(st', k) {
      assert EntryOk(st, k);
    }
    forall c | c in st'.calls ensures CallOk(st', c) {
      assert CallOk(st, c);
    }
  }

  lemma ReturnKeepsInv(st: State, c: Caller, reply: Reply)
    requires Inv(st) && c in st.calls && st.calls[c].key !in st.pending
    requires reply.Response? ==> st.calls[c].channel == Sent(reply.msg)
    requires reply != TimedOut
    ensures Inv(Return(st, c, reply))
  {
  }

  lemma DepartKeepsInv(st: State, c: Caller, reply: Reply)
    requires Inv(st) && c in st.calls && !reply.Response?
    requires reply == TimedOut ==> TimingOut(st.calls[c].phase)
    ensures Inv(Depart(st, c, reply))
  {
    DiscardKeepsInv(st, st.calls[c].key);
    LeavingKeepsInv(Discard(st, st.calls[c].key), c, reply);
  }

  lemma LeavingKeepsInv(st: State, c: Caller, reply: Reply)
    requires Inv(st) && c in st.calls && st.calls[c].key !in st.pending && !reply.Response?
    requires reply == TimedOut ==> TimingOut(st.calls[c].phase)
    ensures Inv(st.(calls := st.calls[c := st.calls[c].(phase := Leaving(reply))]))
  {
    var st' := st.(calls := st.calls[c := st.calls[c].(phase := Leaving(reply))]);
    forall k | k in st'.pending ensures EntryOk(st', k) {
      assert EntryOk(st, k);
    }
    forall c' | c' in st'.calls ensures CallOk(st', c') {
      assert CallOk(st, c');
    }
  }

  lemma LeaveKeepsInv(st: State, c: Caller)
    requires Inv(st) && Enabled(st, Leave(c))
    ensures Inv(Next(st, Leave(c)))
  {
    var st' := Next(st, Leave(c));
    forall k | k in st'.pending ensures EntryOk(st', k) {
      assert EntryOk(st, k);
    }
    forall c' | c' in st'.calls ensures CallOk(st', c') {
      assert CallOk(st, c');
    }
  }

  lemma RegisterKeepsInv(st: State, e: Event)
    requires Inv(st) && e.Register? && Enabled(st, e)
    ensures Inv(Next(st, e))
  {
    if Insert(st.pending, e.key, e.c).0 == None {
      AcceptKeepsInv(st, e.c, Next(st, e).calls[e.c]);
    } else {
      RefuseKeepsInv(st, e.c, Next(st, e).calls[e.c]);
    }
  }

  lemma AcceptKeepsInv(st: State, c: Caller, call: Call)
    requires Inv(st) && c !in st.calls && call.key !in st.pending && |st.pending| < CAPACITY
    requires call == Call(call.id, call.key, Open, Sending, Asleep, st.now, st.now)
    requires call.id.Str? ==> call.key == call.id.s
    ensures Inv(st.(pending := st.pending[call.key := c], calls := st.calls[c := call]))
  {
    var st' := st.(pending := st.pending[call.key := c], calls := st.calls[c := call]);
    assert |st'.pending| == |st.pending| + 1;
    forall k | k in st'.pending ensures EntryOk(st', k) && (k != call.key ==> st'.pending[k] != c) {
      if k in st.pending {
        assert EntryOk(st, k);
      }
    }
    forall c' | c' in st'.calls ensures CallOk(st', c') {
      if c' != c {
        assert CallOk(st, c');
      }
    }
  }

  lemma RefuseKeepsInv(st: State, c: Caller, call: Call)
    requires Inv(st) && c !in st.calls && (call.id.Str? ==> call.key == call.id.s)
    requires call.channel == Closed && (call.phase == Returned(Duplicate) || call.phase == Returned(TooMany))
    requires call.task == Gone && call.since == call.sent == st.now
    ensures Inv(st.(calls := st.calls[c := call]))
  {
    var st' := st.(calls := st.calls[c := call]);
    forall k | k in st'.pending ensures EntryOk(st', k) {
      assert EntryOk(st, k);
    }
    forall c' | c' in st'.calls ensures CallOk(st', c') {
      if c' != c {
        assert CallOk(st, c');
      }
    }
  }

  lemma RouteKeepsInv(st: State, msg: Value)
    requires Inv(st) && st.inHand == None
    ensures Inv(Next(st, Route(msg)))
  {
    var st' := Next(st, Route(msg));
    if st'.inHand.Some? {
      var c := st'.inHand.value.0;
      assert EntryOk(st, st.calls[c].key);
      forall k | k in st'.pending ensures st'.pending[k] != c && EntryOk(st', k) {
        assert EntryOk(st, k);
      }
      forall c' | c' in st'.calls ensures CallOk(st', c') {
        assert CallOk(st, c');
      }
    }
  }

  lemma HandKeepsInv(st: State)
    requires Inv(st) && Enabled(st, Hand)
    ensures Inv(Next(st, Hand))
  {
    var st' := Next(st, Hand);
    forall k | k in st'.pending ensures EntryOk(st', k) {
      assert EntryOk(st, k);
    }
    forall c | c in st'.calls ensures CallOk(st', c) {
      assert CallOk(st, c);
    }
  }

  lemma StepKeepsInv(st: State, e: Event)
    requires Inv(st) && Enabled(st, e)
    ensures Inv(Next(st, e))
  {
    match e {
      case Register(_, _, _) => RegisterKeepsInv(st, e);
      case Route(msg) => RouteKeepsInv(st, msg);
      case Hand => HandKeepsInv(st);
      case SendFails(c) =>
        DiscardKeepsInv(st, st.calls[c].key);
        ReturnKeepsInv(Discard(st, st.calls[c].key), c, SendFailed);
      case Cancel(c) => DepartKeepsInv(st, c, Cancelled);
      case GiveUp(c) => DepartKeepsInv(st, c, TimedOut);
      case Leave(c) => LeaveKeepsInv(st, c);
      case Receive(c) =>
        assert CallOk(st, c);
        forall k | k in st.pending ensures st.pending[k] != c {
          assert EntryOk(st, k);
        }
        AnsweredKeepsInv(st, c);
      case CleanupFires(c) =>
        DiscardKeepsInv(st, st.calls[c].key);
        TaskKeepsInv(Discard(st, st.calls[c].key), c, Gone);
      case Wake(c) => TaskKeepsInv(st, c, Running);
      case SendOk(c) => PhaseKeepsInv(st, c, st.calls[c].(phase := Awaiting, sent := st.now));
      case Expire(c) => PhaseKeepsInv(st, c, st.calls[c].(phase := Expired));
      case Tick(d) => TickKeepsInv(st, d);
    }
  }

  lemma AnsweredKeepsInv(st: State, c: Caller)
    requires Inv(st) && c in st.calls && st.calls[c].channel.Sent?
    requires forall k | k in st.pending :: st.pending[k] != c
    ensures Inv(Return(st, c, Response(st.calls[c].channel.msg)))
  {
    var st' := Return(st, c, Response(st.calls[c].channel.msg));
    forall k | k in st'.pending ensures EntryOk(st', k) {
      assert EntryOk(st, k);
    }
    forall c' | c' in st'.calls ensures CallOk(st', c') {
      assert CallOk(st, c');
    }
  }

  /** Moving on between the phases before the return. */
  lemma PhaseKeepsInv(st: State, c: Caller, call: Call)
    requires Inv(st) && c in st.calls && Live(st.calls[c].phase)
    requires call == st.calls[c].(phase := call.phase, sent := call.sent)
    requires (call.phase == Awaiting && call.sent == st.now) ||
             (call.phase == Expired && call.channel == Open && call.sent == st.calls[c].sent
              && st.now >= call.sent + TIMEOUT)
    ensures Inv(st.(calls := st.calls[c := call]))
  {
    var st' := st.(calls := st.calls[c := call]);
    forall k | k in st'.pending ensures EntryOk(st', k) {
      assert EntryOk(st, k);
    }
    forall c' | c' in st'.calls ensures CallOk(st', c') {
      assert CallOk(st, c') && CallOk(st, c);
    }
  }

  /** The cleanup task wakes up, or ends. */
  lemma TaskKeepsInv(st: State, c: Caller, task: Task)
    requires Inv(st) && c in st.calls
    requires task == Gone || (task == Running && st.now >= st.calls[c].since + TIMEOUT)
    ensures Inv(st.(calls := st.calls[c := st.calls[c].(task := task)]))
  {
    var st' := st.(calls := st.calls[c := st.calls[c].(task := task)]);
    forall k | k in st'.pending ensures EntryOk(st', k) {
      assert EntryOk(st, k);
    }
    forall c' | c' in st'.calls ensures CallOk(st', c') {
      assert CallOk(st, c');
    }
  }

  lemma TickKeepsInv(st: State, d: nat)
    requires Inv(st)
    ensures Inv(Next(st, Tick(d)))
  {
    var st' := Next(st, Tick(d));
    forall k | k in st'.pending ensures EntryOk(st', k) {
      assert EntryOk(st, k);
    }
    forall c | c in st'.calls ensures CallOk(st', c) {
      assert CallOk(st, c);
    }
  }

  // ---- what follows for every run ----

  /** The table never holds more than its capacity, holds each caller at most once, under the
      key it registered, and holds no caller whose `request` has returned. */
  lemma TableIsSafe(trace: seq<Event>)
    requires IsRun(trace)
    ensures var st := After(trace);
            && |st.pending| <= CAPACITY
            && (forall k | k in st.pending ::
                  var c := st.pending[k];
                  c in st.calls && st.calls[c].key == k && !Done(st.calls[c].phase))
            && (forall k, k' | k in st.pending && k' in st.pending && st.pending[k] == st.pending[k'] :: k == k')
  {
    EveryRunKeepsInv(trace);
    var st := After(trace);
    forall k | k in st.pending ensures EntryOk(st, k) {
    }
  }

  /** A caller is answered only with a message that carries its key as a string id. Hence the
      answer has the id the caller sent if and only if that id was a string. */
  lemma AnswersCarryTheKey(trace: seq<Event>, c: Caller)
    requires IsRun(trace) && c in After(trace).calls
    requires After(trace).calls[c].phase.Returned? && After(trace).calls[c].phase.reply.Response?
    ensures var call := After(trace).calls[c];
            && StringId(call.phase.reply.msg) == Some(call.key)
            && (call.phase.reply.msg.Get("id") == Some(call.id) <==> call.id.Str?)
  {
    EveryRunKeepsInv(trace);
    assert CallOk(After(trace), c);
  }

  /** What becomes of a request as it registers: it is refused exactly when its key is in
      flight or the table holds 512 entries, and otherwise sent, with an entry of its own. */
  lemma RegisterOutcome(trace: seq<Event>, c: Caller, id: Value, key: string)
    requires IsRun(trace + [Register(c, id, key)])
    ensures IsRun(trace)
    ensures var st, st' := After(trace), After(trace + [Register(c, id, key)]);
            && c in st'.calls && st'.calls[c].id == id && st'.calls[c].key == key
            && (key in st.pending <==> st'.calls[c].phase == Returned(Duplicate))
            && (key !in st.pending && |st.pending| >= 512 <==> st'.calls[c].phase == Returned(TooMany))
            && (key !in st.pending && |st.pending| < 512 <==> st'.calls[c].phase == Sending)
            && st'.pending == if st'.calls[c].phase == Sending then st.pending[key := c] else st.pending
  {
    assert (trace + [Register(c, id, key)])[..|trace|] == trace;
  }

  /** Requests with these ids, one after the other. */
  function Registrations(keys: seq<string>): seq<Event> {
    if keys == [] then []
    else
      var n := |keys| - 1;
      Registrations(keys[..n]) + [Register(n, Str(keys[n]), keys[n])]
  }

  /** Up to 512 requests with different ids can be in flight together. */
  lemma {:induction false} DistinctRequestsAreAccepted(keys: seq<string>)
    requires |keys| <= 512 && forall i, j | 0 <= i < j < |keys| :: keys[i] != keys[j]
    ensures IsRun(Registrations(keys))
    ensures AllAccepted(After(Registrations(keys)), keys)
    decreases |keys|
  {
    if keys != [] {
      var n := |keys| - 1;
      var past := Registrations(keys[..n]);
      DistinctRequestsAreAccepted(keys[..n]);
      AcceptedOneMore(After(past), keys);
      Extend(past, Register(n, Str(keys[n]), keys[n]));
    }
  }

  /** Exactly these requests are in the table, and all of them are being sent. */
  ghost predicate AllAccepted(st: State, keys: seq<string>) {
    && |st.pending| == |keys| && (forall c | c in st.calls :: c < |keys|)
    && (forall k | k in st.pending :: k in keys)
    && forall i | 0 <= i < |keys| :: AcceptedAt(st, i, keys[i])
  }

  predicate AcceptedAt(st: State, c: Caller, key: string) {
    c in st.calls && st.calls[c].phase == Sending && key in st.pending && st.pending[key] == c
  }

  lemma AcceptedOneMore(st: State, keys: seq<string>)
    requires 0 < |keys| <= 512 && forall i, j | 0 <= i < j < |keys| :: keys[i] != keys[j]
    requires AllAccepted(st, keys[..|keys| - 1])
    ensures var n := |keys| - 1;
            var e := Register(n, Str(keys[n]), keys[n]);
            Enabled(st, e) && AllAccepted(Next(st, e), keys)
  {
    var n := |keys| - 1;
    var st' := Next(st, Register(n, Str(keys[n]), keys[n]));
    assert keys[n] !in st.pending;
    assert |st'.pending| == |st.pending| + 1;
    forall i | 0 <= i < |keys| ensures AcceptedAt(st', i, keys[i]) {
      if i < n {
        assert AcceptedAt(st, i, keys[..n][i]);
      }
    }
    forall k | k in st'.pending ensures k in keys {
      if k != keys[n] {
        assert k in keys[..n];
      }
    }
  }

  /** After these steps c has returned that message. */
  predicate Answers(trace: seq<Event>, more: seq<Event>, c: Caller, msg: Value) {
    && IsRun(trace + more) && c in After(trace + more).calls
    && After(trace + more).calls[c].phase == Returned(Response(msg))
  }

  /** What a live call still does once its answer is there. */
  function Pickup(phase: Phase, c: Caller): seq<Event> {
    if phase == Sending then [SendOk(c), Receive(c)] else [Receive(c)]
  }

  /** When the child echoes the string id of a waiting call while the router is idle, routing
      and handing over the message make that call return it. */
  lemma EchoIsAnswered(trace: seq<Event>, c: Caller, msg: Value)
    requires IsRun(trace) && After(trace).inHand == None && c in After(trace).calls
    requires var call := After(trace).calls[c];
             && call.channel == Open && Live(call.phase)
             && call.id.Str? && msg.Get("id") == Some(call.id)
    ensures Answers(trace, [Route(msg), Hand] + Pickup(After(trace).calls[c].phase, c), c, msg)
  {
    EveryRunKeepsInv(trace);
    WaitingIsInTable(After(trace), c);
    EchoHanded(After(trace), c, msg);
    Extend(trace, Route(msg));
    Extend(trace + [Route(msg)], Hand);
    AnsweredReturns(trace + [Route(msg)] + [Hand], c, msg);
    AnswersJoin(trace, msg, Pickup(After(trace).calls[c].phase, c), c);
  }

  lemma AnswersJoin(trace: seq<Event>, msg: Value, rest: seq<Event>, c: Caller)
    requires Answers(trace + [Route(msg)] + [Hand], rest, c, msg)
    ensures Answers(trace, [Route(msg), Hand] + rest, c, msg)
  {
    assert trace + ([Route(msg), Hand] + rest) == trace + [Route(msg)] + [Hand] + rest;
  }

  lemma AnsweredReturns(trace: seq<Event>, c: Caller, msg: Value)
    requires IsRun(trace) && c in After(trace).calls
    requires Live(After(trace).calls[c].phase) && After(trace).calls[c].channel == Sent(msg)
    ensures Answers(trace, Pickup(After(trace).calls[c].phase, c), c, msg)
  {
    if After(trace).calls[c].phase == Sending {
      Extend(trace, SendOk(c));
      Extend(trace + [SendOk(c)], Receive(c));
      assert trace + Pickup(Sending, c) == trace + [SendOk(c)] + [Receive(c)];
    } else {
      Extend(trace, Receive(c));
    }
  }

  lemma EchoHanded(st: State, c: Caller, msg: Value)
    requires st.inHand == None && Listed(st, c) && Live(st.calls[c].phase)
    requires msg.Get("id") == Some(Str(st.calls[c].key))
    ensures Enabled(Next(st, Route(msg)), Hand)
    ensures var st' := Next(Next(st, Route(msg)), Hand);
            c in st'.calls && st'.calls[c] == st.calls[c].(channel := Sent(msg))
  {
  }

  /** When the child answers a pending call by echoing the id it was sent, the router hands
      the answer to that caller if and only if the id is a string. */
  lemma EchoReachesCallerIff(trace: seq<Event>, c: Caller, msg: Value)
    requires IsRun(trace) && After(trace).inHand == None && c in After(trace).calls
    requires var call := After(trace).calls[c];
             && call.channel == Open && Live(call.phase)
             && msg.Get("id") == Some(call.id)
    ensures var st := After(trace);
            var st' := Next(st, Route(msg));
            if st.calls[c].id.Str? then st'.inHand == Some((c, msg)) && st'.broadcasts == st.broadcasts
            else st'.inHand == None && st'.broadcasts == st.broadcasts + [msg]
  {
    EveryRunKeepsInv(trace);
    WaitingIsInTable(After(trace), c);
    EchoRouted(After(trace), c, msg);
  }

  lemma EchoRouted(st: State, c: Caller, msg: Value)
    requires st.inHand == None && Listed(st, c) && msg.Get("id") == Some(st.calls[c].id)
    requires st.calls[c].id.Str? ==> st.calls[c].key == st.calls[c].id.s
    ensures var st' := Next(st, Route(msg));
            if st.calls[c].id.Str? then st'.inHand == Some((c, msg)) && st'.broadcasts == st.broadcasts
            else st'.inHand == None && st'.broadcasts == st.broadcasts + [msg]
  {
  }

  const NUMERIC_ECHO := Obj(map["id" := Int(5)])

  /** A request with the id 5 is sent, and the child echoes the id. */
  const NUMERIC := [Register(0, Int(5), "5"), SendOk(0), Route(NUMERIC_ECHO)]

  /** The caller goes on waiting, and its answer has been broadcast. */
  lemma NumericEchoIsBroadcast()
    ensures IsRun(NUMERIC)
    ensures var st := After(NUMERIC);
            && st.broadcasts == [NUMERIC_ECHO]
            && st.calls == map[0 := Call(Int(5), "5", Open, Awaiting, Asleep, 0, 0)] && st.pending == map["5" := 0]
  {
    var sent := State(map["5" := 0], map[0 := Call(Int(5), "5", Open, Awaiting, Asleep, 0, 0)], None, [], [], [], 0);
    assert StringId(NUMERIC_ECHO) == None;
    assert [] + [Register(0, Int(5), "5")] == [Register(0, Int(5), "5")];
    Extend([], Register(0, Int(5), "5"));
    Extend([Register(0, Int(5), "5")], SendOk(0));
    var trace := [Register(0, Int(5), "5")] + [SendOk(0)];
    assert After(trace) == sent;
    Extend(trace, Route(NUMERIC_ECHO));
    assert NUMERIC == trace + [Route(NUMERIC_ECHO)];
  }

  lemma WaitingIsInTable(st: State, c: Caller)
    requires Inv(st) && st.inHand == None && c in st.calls
    requires st.calls[c].channel == Open && Live(st.calls[c].phase)
    ensures st.calls[c].key in st.pending && st.pending[st.calls[c].key] == c
    ensures st.calls[c].id.Str? ==> st.calls[c].key == st.calls[c].id.s
  {
    assert CallOk(st, c);
  }

  /** A oneshot is resolved at most once and a return is final: whatever happens later, a
      message sent on a channel stays the one that was sent, and a reply stays the reply. */
  lemma {:induction false} ResolvedOnce(trace: seq<Event>, more: seq<Event>, c: Caller)
    requires IsRun(trace) && IsRun(trace + more)
    ensures c in After(trace).calls ==> IsFinal(After(trace), After(trace + more), c)
    decreases |more|
  {
    if more == [] {
      assert trace + more == trace;
    } else {
      var rest := more[..|more| - 1];
      assert (trace + more)[..|trace + more| - 1] == trace + rest;
      ResolvedOnce(trace, rest, c);
      EveryRunKeepsInv(trace + rest);
      if c in After(trace).calls {
        StepIsFinal(After(trace + rest), (trace + more)[|trace + more| - 1], c);
      }
    }
  }

  predicate IsFinal(before: State, later: State, c: Caller)
    requires c in before.calls
  {
    c in later.calls &&
    var was, now := before.calls[c], later.calls[c];
    && later.now >= before.now
    && now.key == was.key && now.id == was.id && now.since == was.since
    && (was.channel != Open ==> now.channel == was.channel)
    && (was.phase.Returned? ==> now.phase == was.phase)
    && (Done(was.phase) ==> Done(now.phase) && now.phase.reply == was.phase.reply)
  }

  lemma StepIsFinal(st: State, e: Event, c: Caller)
    requires Inv(st) && Enabled(st, e) && c in st.calls
    ensures IsFinal(st, Next(st, e), c)
  {
    if Dropper(e).Some? {
      DropIsFinal(st, e, c);
    } else {
      OtherIsFinal(st, e, c);
    }
  }

  lemma DropIsFinal(st: State, e: Event, c: Caller)
    requires Enabled(st, e) && Dropper(e).Some? && c in st.calls
    ensures IsFinal(st, Next(st, e), c)
  {
    DiscardIsFinal(st, st.calls[Dropper(e).value].key, c);
  }

  lemma OtherIsFinal(st: State, e: Event, c: Caller)
    requires Inv(st) && Enabled(st, e) && Dropper(e) == None && c in st.calls
    ensures IsFinal(st, Next(st, e), c)
  {
  }

  /** The caller whose step removes the entry of its id without using it. */
  function Dropper(e: Event): Option<Caller> {
    match e
    case SendFails(c) => Some(c)
    case Cancel(c) => Some(c)
    case GiveUp(c) => Some(c)
    case CleanupFires(c) => Some(c)
    case _ => None
  }

  lemma DiscardIsFinal(st: State, key: string, c: Caller)
    requires c in st.calls
    ensures c in Discard(st, key).calls
    ensures Discard(st, key).calls[c] == st.calls[c] ||
            (st.calls[c].channel == Open && Discard(st, key).calls[c] == st.calls[c].(channel := Closed))
  {
  }

  // ---- callers that share an id ----

  /** A step closes the channel of a call that was waiting exactly when it is a clean-up step
      of a caller with the same key and the call is the one in the table. */
  lemma ClosedByIff(st: State, e: Event, c: Caller)
    requires Inv(st) && Enabled(st, e) && c in st.calls && st.calls[c].channel == Open
    ensures Next(st, e).calls[c].channel == Closed <==>
            && Dropper(e).Some? && st.calls[Dropper(e).value].key == st.calls[c].key
            && Listed(st, c)
  {
    if Dropper(e).Some? {
      var key := st.calls[Dropper(e).value].key;
      assert key in st.pending ==> EntryOk(st, key);
      DiscardIsFinal(st, key, c);
    }
  }

  /** The entry under c's key is c's own. */
  predicate Listed(st: State, c: Caller) {
    c in st.calls && st.calls[c].key in st.pending && st.pending[st.calls[c].key] == c
  }

  /** The step after which c's channel was closed, and not before. */
  ghost predicate ClosesAt(trace: seq<Event>, c: Caller, i: nat) {
    && i < |trace| && IsRun(trace[..i]) && IsRun(trace[..i + 1])
    && c in After(trace[..i]).calls && After(trace[..i]).calls[c].channel == Open
    && c in After(trace[..i + 1]).calls && After(trace[..i + 1]).calls[c].channel == Closed
  }

  /** Step e is a clean-up by another caller with c's key, or by c's own cleanup task. */
  predicate BlamedOn(st: State, c: Caller, e: Event)
    requires c in st.calls
  {
    && Dropper(e).Some? && Dropper(e).value in st.calls
    && st.calls[Dropper(e).value].key == st.calls[c].key
    && (Dropper(e) != Some(c) || e.CleanupFires?)
  }

  /** Step i closed c's channel, and c's key is to blame. */
  ghost predicate Cause(trace: seq<Event>, c: Caller, i: nat) {
    && IsRun(trace) && c in After(trace).calls
    && ClosesAt(trace, c, i) && BlamedOn(After(trace), c, trace[i])
  }

  /** A call that finds its channel closed before it is done owes that to the step that closed
      it: a clean-up by another caller with the same key, or its own cleanup task. */
  lemma {:induction false} ClosedByKeyMate(trace: seq<Event>, c: Caller) returns (i: nat)
    requires IsRun(trace) && c in After(trace).calls
    requires After(trace).calls[c].channel == Closed && !Done(After(trace).calls[c].phase)
    ensures Cause(trace, c, i)
    decreases |trace|
  {
    var past, e := trace[..|trace| - 1], trace[|trace| - 1];
    UndoneBefore(After(past), e, c);
    if After(past).calls[c].channel == Closed {
      i := ClosedByKeyMate(past, c);
      CauseLater(trace, c, i);
    } else {
      i := |trace| - 1;
      CauseLast(trace, c);
    }
  }

  lemma CauseLater(trace: seq<Event>, c: Caller, i: nat)
    requires trace != [] && IsRun(trace) && Cause(trace[..|trace| - 1], c, i)
    ensures Cause(trace, c, i)
  {
    var past := trace[..|trace| - 1];
    EveryRunKeepsInv(past);
    BlameStays(After(past), trace[|trace| - 1], c, past[i]);
    ClosesLater(trace, c, i);
  }

  lemma CauseLast(trace: seq<Event>, c: Caller)
    requires trace != [] && IsRun(trace) && c in After(trace[..|trace| - 1]).calls && c in After(trace).calls
    requires After(trace).calls[c].channel == Closed && !Done(After(trace).calls[c].phase)
    requires After(trace[..|trace| - 1]).calls[c].channel != Closed
    ensures Cause(trace, c, |trace| - 1)
  {
    var past, e := trace[..|trace| - 1], trace[|trace| - 1];
    EveryRunKeepsInv(past);
    UndoneBefore(After(past), e, c);
    OpenUntilClosed(After(past), e, c);
    BlameStays(After(past), e, c, e);
    ClosesLast(trace, c);
  }

  lemma BlameStays(st: State, e: Event, c: Caller, cause: Event)
    requires Inv(st) && Enabled(st, e) && c in st.calls && BlamedOn(st, c, cause)
    ensures c in Next(st, e).calls && BlamedOn(Next(st, e), c, cause)
  {
    StepIsFinal(st, e, c);
    StepIsFinal(st, e, Dropper(cause).value);
  }

  lemma ClosesLater(trace: seq<Event>, c: Caller, i: nat)
    requires trace != [] && ClosesAt(trace[..|trace| - 1], c, i)
    ensures ClosesAt(trace, c, i)
  {
    assert trace[..|trace| - 1][..i] == trace[..i] && trace[..|trace| - 1][..i + 1] == trace[..i + 1];
  }

  lemma ClosesLast(trace: seq<Event>, c: Caller)
    requires trace != [] && IsRun(trace) && c in After(trace).calls && After(trace).calls[c].channel == Closed
    requires c in After(trace[..|trace| - 1]).calls && After(trace[..|trace| - 1]).calls[c].channel == Open
    ensures ClosesAt(trace, c, |trace| - 1)
  {
    assert trace[..|trace| - 1 + 1] == trace;
  }

  /** A call that is closed and not done was there before, and not done then. */
  lemma UndoneBefore(st: State, e: Event, c: Caller)
    requires Enabled(st, e) && c in Next(st, e).calls
    requires Next(st, e).calls[c].channel == Closed && !Done(Next(st, e).calls[c].phase)
    ensures c in st.calls && !Done(st.calls[c].phase)
    ensures Dropper(e) == Some(c) ==> e.CleanupFires?
  {
  }

  lemma OpenUntilClosed(st: State, e: Event, c: Caller)
    requires Inv(st) && Enabled(st, e) && c in st.calls
    requires st.calls[c].channel != Closed && Next(st, e).calls[c].channel == Closed
    ensures st.calls[c].channel == Open
    ensures Dropper(e).Some? && Dropper(e).value in st.calls && st.calls[Dropper(e).value].key == st.calls[c].key
  {
    StepIsFinal(st, e, c);
    ClosedByIff(st, e, c);
  }

  /** Some step of the call that removes the entry of its key is still to come. */
  predicate StillToClean(call: Call) {
    || call.task != Gone || call.phase == Sending || call.phase == Expired
    || (call.phase == Awaiting && !call.channel.Sent?)
  }

  /** Call d is another of the same key, with such a step still to come. */
  predicate Threatens(st: State, d: Caller, c: Caller) {
    d != c && d in st.calls && c in st.calls && st.calls[d].key == st.calls[c].key && StillToClean(st.calls[d])
  }

  predicate Threatened(st: State, c: Caller) {
    exists d | d in st.calls :: Threatens(st, d, c)
  }

  /** What a call owes to the absence of such calls: it is not closed before it is done, and
      not cancelled. */
  predicate Protected(st: State, c: Caller) {
    c in st.calls &&
    if Done(st.calls[c].phase) then st.calls[c].phase.reply != Cancelled
    else st.calls[c].channel != Closed && (Listed(st, c) ==> !Threatened(st, c))
  }

  lemma LastStep(trace: seq<Event>, more: seq<Event>)
    requires IsRun(trace + more) && more != []
    ensures var rest, e := more[..|more| - 1], more[|more| - 1];
            && IsRun(trace + rest) && Enabled(After(trace + rest), e)
            && After(trace + more) == Next(After(trace + rest), e)
  {
    assert (trace + more)[..|trace + more| - 1] == trace + more[..|more| - 1];
  }

  /** The cleanup task of c has removed its entry. */
  predicate Fired(more: seq<Event>, c: Caller) {
    more != [] && (more[|more| - 1] == CleanupFires(c) || Fired(more[..|more| - 1], c))
  }

  lemma {:induction false} FiredIff(more: seq<Event>, c: Caller)
    ensures Fired(more, c) <==> CleanupFires(c) in more
    decreases |more|
  {
    if more != [] {
      FiredIff(more[..|more| - 1], c);
      assert more == more[..|more| - 1] + [more[|more| - 1]];
    }
  }

  lemma {:induction false} ProtectedStays(trace: seq<Event>, more: seq<Event>, c: Caller)
    requires IsRun(trace) && IsRun(trace + more) && Protected(After(trace), c) && !Fired(more, c)
    ensures Protected(After(trace + more), c)
    decreases |more|
  {
    if more == [] {
      assert trace + more == trace;
    } else {
      LastStep(trace, more);
      ProtectedStays(trace, more[..|more| - 1], c);
      EveryRunKeepsInv(trace + more[..|more| - 1]);
      ProtectedStep(After(trace + more[..|more| - 1]), more[|more| - 1], c);
    }
  }

  lemma ProtectedStep(st: State, e: Event, c: Caller)
    requires Inv(st) && Enabled(st, e) && Protected(st, c) && e != CleanupFires(c)
    ensures Protected(Next(st, e), c)
  {
    var st' := Next(st, e);
    StepIsFinal(st, e, c);
    if !Done(st.calls[c].phase) {
      if st'.calls[c].channel == Closed {
        ClosedByIff(st, e, c);
        DropperIsToClean(st, e);
        assert !Threatens(st, Dropper(e).value, c);
      }
      DoneBy(st, e, c);
      if Listed(st', c) {
        ThreatStep(st, e, c);
      }
    }
  }

  lemma DropperIsToClean(st: State, e: Event)
    requires Enabled(st, e) && Dropper(e).Some?
    ensures Dropper(e).value in st.calls && StillToClean(st.calls[Dropper(e).value])
  {
  }

  /** How a call comes to be done. */
  lemma DoneBy(st: State, e: Event, c: Caller)
    requires Enabled(st, e) && c in st.calls && c in Next(st, e).calls && !Done(st.calls[c].phase)
    ensures Done(Next(st, e).calls[c].phase) && Next(st, e).calls[c].phase.reply == Cancelled ==> e == Cancel(c)
    ensures e == SendFails(c) || e == GiveUp(c) ==> Done(Next(st, e).calls[c].phase)
  {
    if Dropper(e).Some? {
      DropperPhase(st, e, c);
    }
  }

  lemma DropperPhase(st: State, e: Event, c: Caller)
    requires Enabled(st, e) && Dropper(e).Some? && c in st.calls
    ensures c in Next(st, e).calls
    ensures Next(st, e).calls[c].phase ==
            if e == SendFails(c) then Returned(SendFailed)
            else if e == GiveUp(c) then Leaving(TimedOut)
            else if e == Cancel(c) then Leaving(Cancelled)
            else st.calls[c].phase
  {
    DiscardIsFinal(st, st.calls[Dropper(e).value].key, c);
  }

  /** While c is in the table, no call of its key with a clean-up to come appears. */
  lemma ThreatStep(st: State, e: Event, c: Caller)
    requires Inv(st) && Enabled(st, e) && c in st.calls && Listed(Next(st, e), c)
    ensures Listed(st, c)
    ensures Threatened(Next(st, e), c) ==> Threatened(st, c)
  {
    var st' := Next(st, e);
    StepIsFinal(st, e, c);
    ListedBefore(st, e, c);
    if d :| d in st'.calls && Threatens(st', d, c) {
      ToCleanBefore(st, e, d, c);
      StepIsFinal(st, e, d);
      assert Threatens(st, d, c);
    }
  }

  lemma ListedBefore(st: State, e: Event, c: Caller)
    requires Enabled(st, e) && c in st.calls && Listed(Next(st, e), c) && Next(st, e).calls[c].key == st.calls[c].key
    ensures Listed(st, c)
  {
  }

  lemma ToCleanBefore(st: State, e: Event, d: Caller, c: Caller)
    requires Enabled(st, e) && Listed(st, c) && d != c
    requires d in Next(st, e).calls && Next(st, e).calls[d].key == st.calls[c].key && StillToClean(Next(st, e).calls[d])
    ensures d in st.calls && StillToClean(st.calls[d])
  {
  }

  predicate WasCancelled(trace: seq<Event>, c: Caller) {
    IsRun(trace) && c in After(trace).calls && After(trace).calls[c].phase == Returned(Cancelled)
  }

  /** In this continuation c is cancelled, and not by its own cleanup task. */
  predicate Cancels(trace: seq<Event>, more: seq<Event>, c: Caller) {
    CleanupFires(c) !in more && WasCancelled(trace + more, c)
  }

  /** A call that waits in the table can still be cancelled by others if and only if another
      call of its key has a clean-up step to come. */
  lemma CancelledByOthersIff(trace: seq<Event>, c: Caller)
    requires IsRun(trace) && Listed(After(trace), c) && Live(After(trace).calls[c].phase)
    ensures Threatened(After(trace), c) <==> exists more :: Cancels(trace, more, c)
  {
    var st := After(trace);
    EveryRunKeepsInv(trace);
    assert EntryOk(st, st.calls[c].key);
    if Threatened(st, c) {
      var d :| d in st.calls && Threatens(st, d, c);
      var more := CancelBy(trace, c, d);
    } else {
      forall more ensures !Cancels(trace, more, c) {
        if Cancels(trace, more, c) {
          FiredIff(more, c);
          ProtectedStays(trace, more, c);
        }
      }
    }
  }

  lemma Prepend(trace: seq<Event>, e: Event, rest: seq<Event>, c: Caller)
    requires Cancels(trace + [e], rest, c) && e != CleanupFires(c)
    ensures Cancels(trace, [e] + rest, c)
  {
    assert trace + ([e] + rest) == trace + [e] + rest;
  }

  /** The clean-up step of d, and what it may need first. */
  lemma CancelBy(trace: seq<Event>, c: Caller, d: Caller) returns (more: seq<Event>)
    requires IsRun(trace) && Listed(After(trace), c) && Live(After(trace).calls[c].phase)
    requires Threatens(After(trace), d, c)
    ensures Cancels(trace, more, c)
  {
    var call := After(trace).calls[d];
    if call.task == Running {
      more := CancelWith(trace, c, CleanupFires(d));
    } else if call.phase == Sending {
      more := CancelWith(trace, c, SendFails(d));
    } else if call.phase == Expired {
      more := CancelWith(trace, c, GiveUp(d));
    } else if call.phase == Awaiting && call.channel == Closed {
      more := CancelWith(trace, c, Cancel(d));
    } else {
      more := CancelInTime(trace, c, d);
    }
  }

  /** With time its task wakes up, or it expires. */
  lemma CancelInTime(trace: seq<Event>, c: Caller, d: Caller) returns (more: seq<Event>)
    requires IsRun(trace) && Listed(After(trace), c) && Live(After(trace).calls[c].phase)
    requires Threatens(After(trace), d, c)
    requires var call := After(trace).calls[d];
             call.task == Asleep || (call.phase == Awaiting && call.channel == Open)
    ensures Cancels(trace, more, c)
  {
    var call := After(trace).calls[d];
    var tick := Tick(call.since + call.sent + TIMEOUT);
    Extend(trace, tick);
    QuietKeeps(After(trace), tick, c, d);
    var later := trace + [tick];
    var rest;
    if call.task == Asleep {
      rest := CancelAfter(later, c, d, Wake(d), CleanupFires(d));
    } else {
      rest := CancelAfter(later, c, d, Expire(d), GiveUp(d));
    }
    Prepend(trace, tick, rest, c);
    more := [tick] + rest;
  }

  lemma CancelAfter(trace: seq<Event>, c: Caller, d: Caller, first: Event, second: Event) returns (more: seq<Event>)
    requires IsRun(trace) && Listed(After(trace), c) && Live(After(trace).calls[c].phase)
    requires d != c && d in After(trace).calls && After(trace).calls[d].key == After(trace).calls[c].key
    requires (first == Wake(d) && second == CleanupFires(d)) || (first == Expire(d) && second == GiveUp(d))
    requires Enabled(After(trace), first)
    ensures Cancels(trace, more, c)
  {
    Extend(trace, first);
    QuietKeeps(After(trace), first, c, d);
    var rest := CancelWith(trace + [first], c, second);
    Prepend(trace, first, rest, c);
    more := [first] + rest;
  }

  /** Steps that touch neither the table nor call c. */
  lemma QuietKeeps(st: State, e: Event, c: Caller, d: Caller)
    requires Enabled(st, e) && (e.Tick? || e == Wake(d) || e == Expire(d)) && Listed(st, c) && d != c && d in st.calls
    ensures var st' := Next(st, e);
            && Listed(st', c) && st'.calls[c] == st.calls[c]
            && d in st'.calls && st'.calls[d].key == st.calls[d].key
            && (e.Tick? ==> st'.calls[d] == st.calls[d] && st'.now == st.now + e.d)
            && (e == Wake(d) ==> Enabled(st', CleanupFires(d)))
            && (e == Expire(d) ==> Enabled(st', GiveUp(d)))
  {
  }

  lemma CancelWith(trace: seq<Event>, c: Caller, e: Event) returns (more: seq<Event>)
    requires IsRun(trace) && Listed(After(trace), c) && Live(After(trace).calls[c].phase)
    requires Enabled(After(trace), e) && Dropper(e).Some? && Dropper(e) != Some(c)
    requires After(trace).calls[Dropper(e).value].key == After(trace).calls[c].key
    ensures Cancels(trace, more, c)
  {
    var st := After(trace);
    EveryRunKeepsInv(trace);
    assert EntryOk(st, st.calls[c].key);
    ClosedByIff(st, e, c);
    DropperPhase(st, e, c);
    Extend(trace, e);
    var rest := NoticeClosed(trace + [e], c);
    Prepend(trace, e, rest, c);
    more := [e] + rest;
  }

  /** A call that is closed while it waits, or before, returns as cancelled. */
  lemma NoticeClosed(trace: seq<Event>, c: Caller) returns (more: seq<Event>)
    requires IsRun(trace) && c in After(trace).calls && Live(After(trace).calls[c].phase)
    requires After(trace).calls[c].channel == Closed
    ensures Cancels(trace, more, c)
  {
    if After(trace).calls[c].phase == Sending {
      Extend(trace, SendOk(c));
      var rest := NoticeAwaiting(trace + [SendOk(c)], c);
      Prepend(trace, SendOk(c), rest, c);
      more := [SendOk(c)] + rest;
    } else {
      more := NoticeAwaiting(trace, c);
    }
  }

  lemma NoticeAwaiting(trace: seq<Event>, c: Caller) returns (more: seq<Event>)
    requires IsRun(trace) && Enabled(After(trace), Cancel(c))
    ensures more == [Cancel(c), Leave(c)] && Cancels(trace, more, c)
  {
    var left := trace + [Cancel(c)];
    Extend(trace, Cancel(c));
    CancelledLeaves(After(trace), c);
    Extend(left, Leave(c));
    more := [Cancel(c), Leave(c)];
    assert trace + more == left + [Leave(c)];
  }

  lemma CancelledLeaves(st: State, c: Caller)
    requires Enabled(st, Cancel(c))
    ensures Enabled(Next(st, Cancel(c)), Leave(c))
    ensures var st' := Next(Next(st, Cancel(c)), Leave(c));
            c in st'.calls && st'.calls[c].phase == Returned(Cancelled)
  {
  }

  /** Call d has that key and a clean-up to come. */
  predicate Rivals(st: State, d: Caller, key: string) {
    d in st.calls && st.calls[d].key == key && StillToClean(st.calls[d])
  }

  predicate HasRival(st: State, key: string) {
    exists d | d in st.calls :: Rivals(st, d, key)
  }

  /** What a caller can check before it makes a request: once accepted, the request can be
      cancelled by others if and only if an earlier call of its key has a clean-up to come. */
  lemma AcceptedIsSafeIff(past: seq<Event>, c: Caller, id: Value, key: string)
    requires IsRun(past + [Register(c, id, key)])
    requires After(past + [Register(c, id, key)]).calls[c].phase == Sending
    ensures IsRun(past)
    ensures HasRival(After(past), key) <==> exists more :: Cancels(past + [Register(c, id, key)], more, c)
  {
    var trace := past + [Register(c, id, key)];
    assert trace[..|trace| - 1] == past;
    RegisteredIsListed(After(past), c, id, key);
    CancelledByOthersIff(trace, c);
  }

  /** A call is neither closed before it is done nor cancelled. */
  predicate Unharmed(call: Call) {
    if Done(call.phase) then call.phase.reply != Cancelled else call.channel != Closed
  }

  /** A request accepted when no call of its key has a clean-up to come is harmed by nobody but
      its own cleanup task; and before its time is up that task has not run, and the request
      has not timed out either. */
  lemma UnrivalledLivesOut(past: seq<Event>, c: Caller, id: Value, key: string, more: seq<Event>)
    requires IsRun(past) && IsRun(past + [Register(c, id, key)])
    requires After(past + [Register(c, id, key)]).calls[c].phase == Sending && !HasRival(After(past), key)
    requires IsRun(past + [Register(c, id, key)] + more)
    ensures var st := After(past + [Register(c, id, key)] + more);
            && c in st.calls
            && (CleanupFires(c) !in more ==> Unharmed(st.calls[c]))
            && (st.now < After(past).now + 30_000 ==> Unharmed(st.calls[c]) && !TimingOut(st.calls[c].phase))
  {
    var trace := past + [Register(c, id, key)];
    assert trace[..|trace| - 1] == past;
    RegisteredIsListed(After(past), c, id, key);
    EveryRunKeepsInv(trace);
    assert EntryOk(After(trace), key);
    EveryRunKeepsInv(trace + more);
    ResolvedOnce(trace, more, c);
    assert CallOk(After(trace + more), c);
    FiredIff(more, c);
    if Fired(more, c) {
      OwnTaskIsLate(trace, more, c);
    } else {
      ProtectedStays(trace, more, c);
    }
  }

  /** A call that has waited 30 seconds can time out and then leaves nothing in the table. */
  lemma TimeoutReturns(trace: seq<Event>, c: Caller)
    requires IsRun(trace) && c in After(trace).calls
    requires var call := After(trace).calls[c];
             call.phase == Awaiting && call.channel == Open && After(trace).now >= call.sent + 30_000
    ensures var ended := trace + [Expire(c)] + [GiveUp(c)] + [Leave(c)];
            && IsRun(ended) && c in After(ended).calls && After(ended).calls[c].phase == Returned(TimedOut)
            && After(ended).pending == After(trace).pending - {After(trace).calls[c].key}
  {
    TimesOut(After(trace), c);
    Extend(trace, Expire(c));
    Extend(trace + [Expire(c)], GiveUp(c));
    Extend(trace + [Expire(c)] + [GiveUp(c)], Leave(c));
  }

  lemma TimesOut(st: State, c: Caller)
    requires c in st.calls && st.calls[c].phase == Awaiting && st.calls[c].channel == Open
    requires st.now >= st.calls[c].sent + 30_000
    ensures Enabled(st, Expire(c)) && Enabled(Next(st, Expire(c)), GiveUp(c))
    ensures var left := Next(Next(st, Expire(c)), GiveUp(c));
            && Enabled(left, Leave(c))
            && c in Next(left, Leave(c)).calls && Next(left, Leave(c)).calls[c].phase == Returned(TimedOut)
            && Next(left, Leave(c)).pending == st.pending - {st.calls[c].key}
  {
  }

  lemma {:induction false} OwnTaskIsLate(trace: seq<Event>, more: seq<Event>, c: Caller)
    requires IsRun(trace) && IsRun(trace + more) && c in After(trace).calls && Fired(more, c)
    ensures After(trace + more).now >= After(trace).calls[c].since + TIMEOUT
    decreases |more|
  {
    LastStep(trace, more);
    TimePasses(After(trace + more[..|more| - 1]), more[|more| - 1]);
    if more[|more| - 1] == CleanupFires(c) {
      EveryRunKeepsInv(trace + more[..|more| - 1]);
      ResolvedOnce(trace, more[..|more| - 1], c);
      FiresLate(After(trace + more[..|more| - 1]), c);
    } else {
      OwnTaskIsLate(trace, more[..|more| - 1], c);
    }
  }

  lemma FiresLate(st: State, c: Caller)
    requires Inv(st) && Enabled(st, CleanupFires(c))
    ensures st.now >= st.calls[c].since + TIMEOUT
  {
    assert CallOk(st, c);
  }

  lemma TimePasses(st: State, e: Event)
    requires Enabled(st, e)
    ensures Next(st, e).now >= st.now
  {
  }

  /** The reply a call is bound to get, once that is decided. */
  function Fate(call: Call): Option<Reply> {
    if Done(call.phase) then Some(call.phase.reply)
    else if call.phase == Expired then Some(TimedOut)
    else if call.phase == Awaiting && call.channel == Closed then Some(Cancelled)
    else if call.phase == Awaiting && call.channel.Sent? then Some(Response(call.channel.msg))
    else None
  }

  /** Of the answer, the removal of its entry and the timeout, the first to come while a call
      waits decides its reply, whatever comes later. */
  lemma {:induction false} FirstDecides(trace: seq<Event>, more: seq<Event>, c: Caller)
    requires IsRun(trace) && IsRun(trace + more) && c in After(trace).calls && Fate(After(trace).calls[c]).Some?
    ensures c in After(trace + more).calls && Fate(After(trace + more).calls[c]) == Fate(After(trace).calls[c])
    decreases |more|
  {
    if more == [] {
      assert trace + more == trace;
    } else {
      LastStep(trace, more);
      FirstDecides(trace, more[..|more| - 1], c);
      EveryRunKeepsInv(trace + more[..|more| - 1]);
      FateStays(After(trace + more[..|more| - 1]), more[|more| - 1], c);
    }
  }

  lemma FateStays(st: State, e: Event, c: Caller)
    requires Inv(st) && Enabled(st, e) && c in st.calls && Fate(st.calls[c]).Some?
    ensures c in Next(st, e).calls && Fate(Next(st, e).calls[c]) == Fate(st.calls[c])
  {
    if Dropper(e).Some? {
      DropperPhase(st, e, c);
      DiscardIsFinal(st, st.calls[Dropper(e).value].key, c);
    } else {
      assert CallOk(st, c);
    }
  }

  /** If all earlier calls of its key have returned, and no cleanup task of theirs is past its
      sleep, an accepted request has no rivals. */
  lemma ReturnedKeyMatesAreHarmless(past: seq<Event>, key: string)
    requires IsRun(past)
    requires forall d | d in After(past).calls && After(past).calls[d].key == key ::
               After(past).calls[d].phase.Returned? && After(past).calls[d].task != Running
    ensures !HasRival(After(past), key)
  {
    EveryRunKeepsInv(past);
    forall d | d in After(past).calls ensures !Rivals(After(past), d, key) {
      assert CallOk(After(past), d);
    }
  }

  lemma RegisteredIsListed(st: State, c: Caller, id: Value, key: string)
    requires Enabled(st, Register(c, id, key)) && Next(st, Register(c, id, key)).calls[c].phase == Sending
    ensures var st' := Next(st, Register(c, id, key));
            && Listed(st', c) && (Threatened(st', c) <==> HasRival(st, key))
            && st'.calls[c].key == key && st'.calls[c].since == st.now
  {
    var st' := Next(st, Register(c, id, key));
    assert st'.calls == st.calls[c := st'.calls[c]] && st'.calls[c].key == key;
    forall d ensures Threatens(st', d, c) <==> Rivals(st, d, key) {
    }
    if d :| d in st.calls && Rivals(st, d, key) {
      assert d in st'.calls && Threatens(st', d, c);
    }
    if d :| d in st'.calls && Threatens(st', d, c) {
      assert d in st.calls && Rivals(st, d, key);
    }
  }

  const ANSWER := Obj(map["id" := Str("a")])

  /** A caller times out just as its answer is taken; a second caller registers the id that
      is free again; and the first one's clean-up comes last. */
  const REUSE := [Register(0, Str("a"), "a"), SendOk(0), Tick(TIMEOUT), Expire(0), Route(ANSWER), Hand,
                  Register(1, Str("a"), "a"), SendOk(1), GiveUp(0)]

  /** Where that run stands after its first n events. */
  function ReuseState(n: nat): State
    requires n <= 9
  {
    var late := Call(Str("a"), "a", Open,
                     if n == 1 then Sending else if n <= 3 then Awaiting
                     else if n < 9 then Expired else Leaving(TimedOut), Asleep, 0, 0);
    var early := Call(Str("a"), "a", if n == 9 then Closed else Open, if n == 7 then Sending else Awaiting,
                      Asleep, TIMEOUT, TIMEOUT);
    if n == 0 then START
    else State(if n < 5 then map["a" := 0] else if n == 7 || n == 8 then map["a" := 1] else map[],
               if n < 7 then map[0 := late] else map[0 := late, 1 := early],
               if n == 5 then Some((0, ANSWER)) else None,
               [], [], if n < 6 then [] else [(0, ANSWER)], if n < 3 then 0 else TIMEOUT)
  }

  lemma ReuseStep(n: nat)
    requires n < 9
    ensures Enabled(ReuseState(n), REUSE[n]) && Next(ReuseState(n), REUSE[n]) == ReuseState(n + 1)
  {
    if n < 4 {
      ReuseOpening(n);
    } else if n < 6 {
      ReuseAnswer(n);
    } else {
      ReuseEnding(n);
    }
  }

  lemma ReuseOpening(n: nat)
    requires n < 4
    ensures Enabled(ReuseState(n), REUSE[n]) && Next(ReuseState(n), REUSE[n]) == ReuseState(n + 1)
  {
  }

  lemma ReuseAnswer(n: nat)
    requires 4 <= n < 6
    ensures Enabled(ReuseState(n), REUSE[n]) && Next(ReuseState(n), REUSE[n]) == ReuseState(n + 1)
  {
    assert StringId(ANSWER) == Some("a");
  }

  lemma ReuseEnding(n: nat)
    requires 6 <= n < 9
    ensures Enabled(ReuseState(n), REUSE[n]) && Next(ReuseState(n), REUSE[n]) == ReuseState(n + 1)
  {
  }

  lemma ReachesNext(trace: seq<Event>, n: nat)
    requires n < |trace| && IsRun(trace[..n]) && Enabled(After(trace[..n]), trace[n])
    ensures IsRun(trace[..n + 1]) && After(trace[..n + 1]) == Next(After(trace[..n]), trace[n])
  {
    Extend(trace[..n], trace[n]);
    assert trace[..n + 1] == trace[..n] + [trace[n]];
  }

  lemma {:induction false} ReuseReaches(n: nat)
    requires n <= 9
    ensures IsRun(REUSE[..n]) && After(REUSE[..n]) == ReuseState(n)
  {
    if n > 0 {
      ReuseReaches(n - 1);
      ReuseStep(n - 1);
      ReachesNext(REUSE, n - 1);
    }
  }

  /** Reusing the id of a request that has timed out is not safe for the second request: the
      first one's clean-up can cancel it, though it has just begun to wait. */
  lemma ReusedIdCanBeCancelled()
    ensures forall e | e in REUSE :: e != Expire(1) && e != CleanupFires(1)
    ensures Cancels(REUSE, [Cancel(1), Leave(1)], 1)
    ensures IsRun(REUSE) && After(REUSE) == ReuseState(9)
    ensures ReuseState(9).now == ReuseState(9).calls[1].since
  {
    ReuseReaches(9);
    assert REUSE[..9] == REUSE;
    var _ := NoticeAwaiting(REUSE, 1);
  }

  function Handed(log: seq<(Caller, Value)>): (r: seq<Value>)
    ensures |r| == |log|
  {
    if log == [] then [] else Handed(log[..|log| - 1]) + [log[|log| - 1].1]
  }

  function Count(log: seq<Value>, m: Value): nat {
    if log == [] then 0 else Count(log[..|log| - 1], m) + if log[|log| - 1] == m then 1 else 0
  }

  lemma CountPush(log: seq<Value>, x: Value, m: Value)
    ensures Count(log + [x], m) == Count(log, m) + if x == m then 1 else 0
  {
    assert (log + [x])[..|log|] == log;
  }

  /** The places where a routed message can be. */
  function Accounted(st: State, m: Value): nat {
    Count(st.broadcasts, m) + Count(Handed(st.delivered), m) + Count(Handed(st.lost), m) +
    if st.inHand.Some? && st.inHand.value.1 == m then 1 else 0
  }

  /** Every message the router took from the child is accounted for exactly once: broadcast,
      handed to the one caller that was waiting, lost because that caller had stopped
      listening, or still in the router's hand. */
  lemma {:induction false} MessagesAreConserved(trace: seq<Event>, m: Value)
    requires IsRun(trace)
    ensures Count(Routed(trace), m) == Accounted(After(trace), m)
    decreases |trace|
  {
    if trace != [] {
      var past, e := trace[..|trace| - 1], trace[|trace| - 1];
      MessagesAreConserved(past, m);
      AccountedStep(After(past), e, m);
      if e.Route? {
        CountPush(Routed(past), e.msg, m);
      } else {
        assert Routed(trace) == Routed(past);
      }
    }
  }

  lemma AccountedStep(st: State, e: Event, m: Value)
    requires Enabled(st, e)
    ensures Accounted(Next(st, e), m) == Accounted(st, m) + if e.Route? && e.msg == m then 1 else 0
  {
    if e == Hand {
      HandAccounted(st, m);
    } else if e.Route? {
      RouteAccounted(st, e.msg, m);
    } else {
      LogsUntouched(st, e);
    }
  }

  lemma HandAccounted(st: State, m: Value)
    requires Enabled(st, Hand)
    ensures Accounted(Next(st, Hand), m) == Accounted(st, m)
  {
    HandMoves(st);
    MovedAccounted(st, Next(st, Hand), m);
  }

  /** From st to st' the message has moved from the hand to the end of one of two logs. */
  predicate HandsOver(st: State, st': State) {
    && st.inHand.Some? && st'.inHand == None && st'.broadcasts == st.broadcasts
    && ((st'.delivered == st.delivered + [st.inHand.value] && st'.lost == st.lost) ||
        (st'.delivered == st.delivered && st'.lost == st.lost + [st.inHand.value]))
  }

  lemma HandMoves(st: State)
    requires Enabled(st, Hand)
    ensures HandsOver(st, Next(st, Hand))
  {
  }

  lemma MovedAccounted(st: State, st': State, m: Value)
    requires HandsOver(st, st')
    ensures Accounted(st', m) == Accounted(st, m)
  {
    LogPush(st.delivered, st.inHand.value, m);
    LogPush(st.lost, st.inHand.value, m);
  }

  lemma LogPush(log: seq<(Caller, Value)>, entry: (Caller, Value), m: Value)
    ensures Count(Handed(log + [entry]), m) == Count(Handed(log), m) + if entry.1 == m then 1 else 0
  {
    HandedPush(log, entry);
    CountPush(Handed(log), entry.1, m);
  }

  lemma RouteAccounted(st: State, msg: Value, m: Value)
    requires Enabled(st, Route(msg))
    ensures Accounted(Next(st, Route(msg)), m) == Accounted(st, m) + if msg == m then 1 else 0
  {
    RouteMoves(st, msg);
    TakenAccounted(st, Next(st, Route(msg)), msg, m);
  }

  /** From st to st' the message was broadcast or taken in hand. */
  predicate Takes(st: State, st': State, msg: Value) {
    && st'.delivered == st.delivered && st'.lost == st.lost && st.inHand == None
    && ((st'.broadcasts == st.broadcasts + [msg] && st'.inHand == None) ||
        (st'.broadcasts == st.broadcasts && st'.inHand.Some? && st'.inHand.value.1 == msg))
  }

  lemma RouteMoves(st: State, msg: Value)
    requires Enabled(st, Route(msg))
    ensures Takes(st, Next(st, Route(msg)), msg)
  {
  }

  lemma TakenAccounted(st: State, st': State, msg: Value, m: Value)
    requires Takes(st, st', msg)
    ensures Accounted(st', m) == Accounted(st, m) + if msg == m then 1 else 0
  {
    CountPush(st.broadcasts, msg, m);
  }

  lemma LogsUntouched(st: State, e: Event)
    requires Enabled(st, e) && e != Hand && !e.Route?
    ensures var st' := Next(st, e);
            st'.(pending := st.pending, calls := st.calls, now := st.now) == st
  {
  }

  lemma HandedPush(log: seq<(Caller, Value)>, entry: (Caller, Value))
    ensures Handed(log + [entry]) == Handed(log) + [entry.1]
  {
    assert (log + [entry])[..|log|] == log;
  }

  ghost predicate Resolves(st: State, delivery: (Caller, Value)) {
    delivery.0 in st.calls && st.calls[delivery.0].channel == Sent(delivery.1)
  }

  ghost predicate DeliveriesOk(st: State) {
    && (forall i | 0 <= i < |st.delivered| :: Resolves(st, st.delivered[i]))
    && (forall i, j | 0 <= i < j < |st.delivered| :: st.delivered[i].0 != st.delivered[j].0)
  }

  /** Each delivery resolved the channel of its own caller, and no caller had two. */
  lemma {:induction false} DeliveriesResolveTheirCaller(trace: seq<Event>)
    requires IsRun(trace)
    ensures DeliveriesOk(After(trace))
    decreases |trace|
  {
    if trace != [] {
      var past, e := trace[..|trace| - 1], trace[|trace| - 1];
      DeliveriesResolveTheirCaller(past);
      EveryRunKeepsInv(past);
      DeliveriesStep(After(past), e);
    }
  }

  lemma DeliveriesStep(st: State, e: Event)
    requires Inv(st) && Enabled(st, e) && DeliveriesOk(st)
    ensures DeliveriesOk(Next(st, e))
  {
    var st' := Next(st, e);
    forall i | 0 <= i < |st.delivered| ensures Resolves(st', st.delivered[i]) {
      assert Resolves(st, st.delivered[i]);
      StepIsFinal(st, e, st.delivered[i].0);
    }
    DeliveredGrows(st, e);
  }

  lemma DeliveredGrows(st: State, e: Event)
    requires Inv(st) && Enabled(st, e)
    ensures var st' := Next(st, e);
            || st'.delivered == st.delivered
            || (st.inHand.Some? && st.calls[st.inHand.value.0].channel == Open
                && st'.delivered == st.delivered + [st.inHand.value] && Resolves(st', st.inHand.value))
  {
  }
}
