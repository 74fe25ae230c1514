/** POST, GET and DELETE handlers, response guards, idle timers and cleanup tasks of the
    stateful Streamable HTTP gateway, interleaved in any order. A run is a sequence of
    events; what must hold of the state is stated against the history of the run. */
module SessionProtocol {
  import opened AccessCounter

  type HandlerId = nat

  datatype Kind = Post | Get | Delete

  /** The decrement owed by a guard: not yet triggered, task spawned, or carried out. */
  datatype Release = Held | Spawned | Completed

  /** What a handler has done with its session. `clones` counts the guard values alive;
      a DELETE that finds the session already removed is `Leaked`: counted, never guarded. */
  datatype Access = LookedUp | Counted | Guarded(clones: nat, release: Release) | Leaked

  datatype Handler = Handler(kind: Kind, session: SessionId, access: Access)

  datatype System = System(
    counter: Counter,
    live: set<SessionId>,
    issued: set<SessionId>,
    handlers: map<HandlerId, Handler>,
    cleanups: map<TimerId, SessionId>,
    now: nat)

  datatype Event =
    | Create(h: HandlerId, s: SessionId)
    | Lookup(h: HandlerId, kind: Kind, s: SessionId)
    | CountIn(h: HandlerId, s: SessionId)
    | Attach(h: HandlerId)
    | Remove(h: HandlerId, s: SessionId)
    | CloneGuard(h: HandlerId)
    | DropGuard(h: HandlerId)
    | RunDec(h: HandlerId, s: SessionId)
    | Tick(d: nat)
    | Fire(t: TimerId, s: SessionId)
    | Cleanup(t: TimerId, s: SessionId)

  const START := System(EMPTY, {}, {}, map[], map[], 0)

  predicate Enabled(sys: System, e: Event) {
    match e
    case Create(h, s) => h !in sys.handlers && s !in sys.issued
    case Lookup(h, _, s) => h !in sys.handlers && s in sys.live
    case CountIn(h, s) => h in sys.handlers && sys.handlers[h].session == s && sys.handlers[h].access == LookedUp
    case Attach(h) => h in sys.handlers && sys.handlers[h].access == Counted && sys.handlers[h].kind != Delete
    case Remove(h, s) =>
      && h in sys.handlers && sys.handlers[h].session == s
      && sys.handlers[h].access == Counted && sys.handlers[h].kind == Delete
    case CloneGuard(h) => h in sys.handlers && sys.handlers[h].access.Guarded? && sys.handlers[h].access.clones > 0
    case DropGuard(h) => h in sys.handlers && sys.handlers[h].access.Guarded? && sys.handlers[h].access.clones > 0
    case RunDec(h, s) =>
      && h in sys.handlers && sys.handlers[h].session == s
      && sys.handlers[h].access.Guarded? && sys.handlers[h].access.release == Spawned
    case Tick(_) => true
    case Fire(t, s) =>
      && t in sys.counter.timers && sys.counter.timers[t].session == s
      && sys.counter.timers[t].due <= sys.now
    case Cleanup(t, s) => t in sys.cleanups && sys.cleanups[t] == s
  }

  function WithAccess(sys: System, h: HandlerId, a: Access): System
    requires h in sys.handlers
  {
    sys.(handlers := sys.handlers[h := sys.handlers[h].(access := a)])
  }

  function Next(timeout: nat, sys: System, e: Event): System
    requires Enabled(sys, e)
  {
    match e
    case Create(h, s) =>
      sys.(live := sys.live + {s}, issued := sys.issued + {s}, counter := AfterInc(sys.counter, s),
           handlers := sys.handlers[h := Handler(Post, s, Counted)])
    case Lookup(h, kind, s) =>
      sys.(handlers := sys.handlers[h := Handler(kind, s, LookedUp)])
    case CountIn(h, s) =>
      WithAccess(sys, h, Counted).(counter := AfterInc(sys.counter, s))
    case Attach(h) =>
      WithAccess(sys, h, Guarded(1, Held))
    case Remove(h, s) =>
      if s in sys.live then
        WithAccess(sys, h, Guarded(1, Held)).(live := sys.live - {s})
      else
        WithAccess(sys, h, Leaked)
    case CloneGuard(h) =>
      var a := sys.handlers[h].access;
      WithAccess(sys, h, a.(clones := a.clones + 1))
    case DropGuard(h) =>
      var a := sys.handlers[h].access;
      WithAccess(sys, h, Guarded(a.clones - 1, if a.release == Held then Spawned else a.release))
    case RunDec(h, s) =>
      WithAccess(sys, h, sys.handlers[h].access.(release := Completed))
        .(counter := AfterDec(sys.counter, s, sys.now, timeout))
    case Tick(d) =>
      sys.(now := sys.now + d)
    case Fire(t, s) =>
      sys.(counter := sys.counter.(timers := sys.counter.timers - {t}), cleanups := sys.cleanups[t := s])
    case Cleanup(t, s) =>
      sys.(live := sys.live - {s}, cleanups := sys.cleanups - {t})
  }

  // ---- runs ----

  function Init(trace: seq<Event>): seq<Event>
    requires trace != []
  {
    trace[..|trace| - 1]
  }

  function Last(trace: seq<Event>): Event
    requires trace != []
  {
    trace[|trace| - 1]
  }

  predicate IsRun(timeout: nat, trace: seq<Event>)
    decreases |trace|, 1
  {
    trace == [] || (IsRun(timeout, Init(trace)) && Enabled(After(timeout, Init(trace)), Last(trace)))
  }

  function After(timeout: nat, trace: seq<Event>): System
    requires IsRun(timeout, trace)
    decreases |trace|, 2
  {
    if trace == [] then START else Next(timeout, After(timeout, Init(trace)), Last(trace))
  }

  lemma Extend(timeout: nat, trace: seq<Event>, e: Event)
    requires IsRun(timeout, trace) && Enabled(After(timeout, trace), e)
    ensures IsRun(timeout, trace + [e]) && After(timeout, trace + [e]) == Next(timeout, After(timeout, trace), e)
  {
    assert Init(trace + [e]) == trace;
  }

  // ---- the history of a run, read off its events alone ----

  predicate IsInc(e: Event, s: SessionId) {
    (e.Create? || e.CountIn?) && e.s == s
  }

  predicate IsDec(e: Event, s: SessionId) {
    e.RunDec? && e.s == s
  }

  function Incs(trace: seq<Event>, s: SessionId): nat {
    if trace == [] then 0 else Incs(Init(trace), s) + if IsInc(Last(trace), s) then 1 else 0
  }

  function Decs(trace: seq<Event>, s: SessionId): nat {
    if trace == [] then 0 else Decs(Init(trace), s) + if IsDec(Last(trace), s) then 1 else 0
  }

  function DecsBy(trace: seq<Event>, h: HandlerId): nat {
    if trace == [] then 0
    else DecsBy(Init(trace), h) + if Last(trace).RunDec? && Last(trace).h == h then 1 else 0
  }

  function Now(trace: seq<Event>): nat {
    if trace == [] then 0 else Now(Init(trace)) + if Last(trace).Tick? then Last(trace).d else 0
  }

  /** The time at which the idle period s is in began, if it is in one. */
  function IdleSince(trace: seq<Event>, s: SessionId): (r: Idle) {
    if trace == [] then Busy
    else if IsInc(Last(trace), s) then Busy
    else if IsDec(Last(trace), s) then (if Incs(trace, s) == Decs(trace, s) then IdleFrom(Now(trace)) else Busy)
    else IdleSince(Init(trace), s)
  }

  datatype Idle = Busy | IdleFrom(time: nat)

  /** Cleanup calls for s since its last access began or its idle period started. */
  function FiredSinceIdle(trace: seq<Event>, s: SessionId): nat {
    if trace == [] || IsInc(Last(trace), s) || IsDec(Last(trace), s) then 0
    else FiredSinceIdle(Init(trace), s) + if Last(trace).Fire? && Last(trace).s == s then 1 else 0
  }

  // ---- accounting ----

  predicate Outstanding(a: Access) {
    a.Counted? || a.Leaked? || (a.Guarded? && a.release != Completed)
  }

  function Users(sys: System, s: SessionId): set<HandlerId> {
    set h | h in sys.handlers && sys.handlers[h].session == s && Outstanding(sys.handlers[h].access)
  }

  /** What the counter must hold for a session, given its history. */
  predicate EntryFits(c: Counter, s: SessionId, incs: nat, decs: nat) {
    if incs == 0 then s !in c.entries
    else
      s in c.entries &&
      if incs == decs then c.entries[s].Timeout? else incs > decs && c.entries[s] == Active(incs - decs)
  }

  /** In every run the entry of a session is absent before its first access, Active with
      exactly the accesses not yet given back, and Timeout exactly when there are none. */
  lemma {:induction false} Accounting(timeout: nat, trace: seq<Event>, s: SessionId)
    requires IsRun(timeout, trace)
    ensures Incs(trace, s) == Decs(trace, s) + |Users(After(timeout, trace), s)|
    ensures EntryFits(After(timeout, trace).counter, s, Incs(trace, s), Decs(trace, s))
    decreases |trace|
  {
    if trace == [] {
      assert Users(START, s) == {};
    } else {
      var sys, e := After(timeout, Init(trace)), Last(trace);
      Accounting(timeout, Init(trace), s);
      UsersStep(timeout, sys, e, s);
      if e.RunDec? && e.s == s {
        assert e.h in Users(sys, s);
      }
      EntryStep(timeout, sys, e, s, Incs(Init(trace), s), Decs(Init(trace), s));
    }
  }

  lemma EntryStep(timeout: nat, sys: System, e: Event, s: SessionId, incs: nat, decs: nat)
    requires Enabled(sys, e) && EntryFits(sys.counter, s, incs, decs)
    requires decs <= incs && (IsDec(e, s) ==> decs < incs)
    ensures EntryFits(Next(timeout, sys, e).counter, s,
                      incs + if IsInc(e, s) then 1 else 0, decs + if IsDec(e, s) then 1 else 0)
  {
  }

  /** One event adds or removes at most one user, exactly as it counts. */
  lemma UsersStep(timeout: nat, sys: System, e: Event, s: SessionId)
    requires Enabled(sys, e)
    ensures |Users(Next(timeout, sys, e), s)| ==
            |Users(sys, s)| + (if IsInc(e, s) then 1 else 0) - (if IsDec(e, s) then 1 else 0)
  {
    var before, after := Users(sys, s), Users(Next(timeout, sys, e), s);
    UsersFollow(timeout, sys, e, s);
    if IsInc(e, s) {
      assert after == before + {e.h};
    } else if IsDec(e, s) {
      assert after == before - {e.h};
    } else {
      assert after == before;
    }
  }

  lemma UsersFollow(timeout: nat, sys: System, e: Event, s: SessionId)
    requires Enabled(sys, e)
    ensures forall h :: h in Users(Next(timeout, sys, e), s) <==>
                        (h in Users(sys, s) && !(IsDec(e, s) && h == e.h)) || (IsInc(e, s) && h == e.h)
    ensures IsInc(e, s) ==> e.h !in Users(sys, s)
    ensures IsDec(e, s) ==> e.h in Users(sys, s)
  {
  }

  /** `dec` never reaches its error branches: it always finds an active count. */
  lemma DecFindsActiveCount(timeout: nat, trace: seq<Event>, h: HandlerId, s: SessionId)
    requires IsRun(timeout, trace + [RunDec(h, s)])
    ensures IsRun(timeout, trace)
    ensures var c := After(timeout, trace).counter;
            s in c.entries && c.entries[s].Active? && c.entries[s].count > 0
  {
    var full := trace + [RunDec(h, s)];
    assert Init(full) == trace && Last(full) == RunDec(h, s);
    Accounting(timeout, trace, s);
    assert h in Users(After(timeout, trace), s);
  }

  /** However often a guard is cloned and dropped, it decrements once, and only after a drop. */
  lemma {:induction false} GuardDecsOnce(timeout: nat, trace: seq<Event>, h: HandlerId)
    requires IsRun(timeout, trace)
    ensures var sys := After(timeout, trace);
            DecsBy(trace, h) == if HasReleased(sys, h) then 1 else 0
    decreases |trace|
  {
    if trace != [] {
      GuardDecsOnce(timeout, Init(trace), h);
      ReleaseStep(timeout, After(timeout, Init(trace)), Last(trace), h);
    }
  }

  /** A guard is never forgotten: when its last clone is gone its decrement has been carried
      out or is about to be. */
  lemma {:induction false} DroppedGuardDecs(timeout: nat, trace: seq<Event>, h: HandlerId)
    requires IsRun(timeout, trace) && h in After(timeout, trace).handlers
    ensures var sys := After(timeout, trace);
            sys.handlers[h].access.Guarded? && sys.handlers[h].access.clones == 0 ==>
              DecsBy(trace, h) == 1 || Enabled(sys, RunDec(h, sys.handlers[h].session))
    decreases |trace|
  {
    GuardDecsOnce(timeout, trace, h);
    DroppedGuardFires(timeout, trace, h);
  }

  predicate Forgotten(sys: System, h: HandlerId) {
    h in sys.handlers && sys.handlers[h].access.Guarded? && sys.handlers[h].access.clones == 0
    && sys.handlers[h].access.release == Held
  }

  lemma {:induction false} DroppedGuardFires(timeout: nat, trace: seq<Event>, h: HandlerId)
    requires IsRun(timeout, trace)
    ensures !Forgotten(After(timeout, trace), h)
    decreases |trace|
  {
    if trace != [] {
      DroppedGuardFires(timeout, Init(trace), h);
      NeverForgotten(timeout, After(timeout, Init(trace)), Last(trace), h);
    }
  }

  lemma NeverForgotten(timeout: nat, sys: System, e: Event, h: HandlerId)
    requires Enabled(sys, e) && !Forgotten(sys, h)
    ensures !Forgotten(Next(timeout, sys, e), h)
  {
  }

  predicate HasReleased(sys: System, h: HandlerId) {
    h in sys.handlers && sys.handlers[h].access.Guarded? && sys.handlers[h].access.release == Completed
  }

  lemma ReleaseStep(timeout: nat, sys: System, e: Event, h: HandlerId)
    requires Enabled(sys, e)
    ensures HasReleased(Next(timeout, sys, e), h) <==> HasReleased(sys, h) || (e.RunDec? && e.h == h)
    ensures e.RunDec? && e.h == h ==> !HasReleased(sys, h)
  {
  }

  // ---- timers ----

  /** Timer identities are never reused, and no two sessions wait on the same timer. */
  ghost predicate HandlesDistinct(c: Counter) {
    && (forall t | t in c.timers :: t < c.spawned)
    && (forall s | s in c.entries && c.entries[s].Timeout? :: c.entries[s].handle < c.spawned)
    && (forall s, s' | s in c.entries && s' in c.entries && s != s' && c.entries[s].Timeout? && c.entries[s'].Timeout?
          :: c.entries[s].handle != c.entries[s'].handle)
  }

  lemma {:induction false} TimerIdentity(timeout: nat, trace: seq<Event>)
    requires IsRun(timeout, trace)
    ensures HandlesDistinct(After(timeout, trace).counter)
    ensures After(timeout, trace).now == Now(trace)
    decreases |trace|
  {
    if trace != [] {
      TimerIdentity(timeout, Init(trace));
      var sys := After(timeout, Init(trace));
      IncKeepsIdentity(sys.counter, Last(trace));
      DecKeepsIdentity(sys.counter, Last(trace), sys.now, timeout);
    }
  }

  lemma IncKeepsIdentity(c: Counter, e: Event)
    requires HandlesDistinct(c)
    ensures e.Create? || e.CountIn? ==> HandlesDistinct(AfterInc(c, e.s))
  {
  }

  lemma DecKeepsIdentity(c: Counter, e: Event, now: nat, timeout: nat)
    requires HandlesDistinct(c)
    ensures e.RunDec? ==> HandlesDistinct(AfterDec(c, e.s, now, timeout))
  {
  }

  /** The state of the idle timer of s follows from the history of s alone. While s is in
      use it has no live timer. In an idle period the entry holds a handle, which is the only
      live timer of s, due one timeout after the period began, until it has fired once. */
  ghost predicate TimerFits(timeout: nat, c: Counter, s: SessionId, idle: Idle, fired: nat) {
    && (forall t | t in c.timers && c.timers[t].session == s
          :: idle.IdleFrom? && s in c.entries && c.entries[s] == Timeout(t) && c.timers[t].due == idle.time + timeout)
    && (idle.Busy? ==> fired == 0)
    && (idle.IdleFrom? ==>
        && s in c.entries && c.entries[s].Timeout? && fired <= 1
        && (c.entries[s].handle in c.timers ==> c.timers[c.entries[s].handle].session == s)
        && (fired == 0 <==> c.entries[s].handle in c.timers))
  }

  lemma {:induction false} IdleTimer(timeout: nat, trace: seq<Event>, s: SessionId)
    requires IsRun(timeout, trace)
    ensures TimerFits(timeout, After(timeout, trace).counter, s, IdleSince(trace, s), FiredSinceIdle(trace, s))
    ensures IdleSince(trace, s).IdleFrom? <==> Incs(trace, s) > 0 && Incs(trace, s) == Decs(trace, s)
    decreases |trace|
  {
    if trace != [] {
      var past, e := Init(trace), Last(trace);
      var sys := After(timeout, past);
      IdleTimer(timeout, past, s);
      TimerIdentity(timeout, past);
      Accounting(timeout, past, s);
      Accounting(timeout, trace, s);
      if e.RunDec? {
        DecFindsActiveCount(timeout, past, e.h, e.s) by { assert past + [e] == trace; }
      }
      TimerStep(timeout, sys, e, s, IdleSince(past, s), FiredSinceIdle(past, s));
    }
  }

  lemma TimerStep(timeout: nat, sys: System, e: Event, s: SessionId, idle: Idle, fired: nat)
    requires Enabled(sys, e) && HandlesDistinct(sys.counter) && TimerFits(timeout, sys.counter, s, idle, fired)
    requires e.RunDec? ==>
               e.s in sys.counter.entries && sys.counter.entries[e.s].Active? && sys.counter.entries[e.s].count > 0
    ensures var c' := Next(timeout, sys, e).counter;
            if IsInc(e, s) then TimerFits(timeout, c', s, Busy, 0)
            else if IsDec(e, s) then
              TimerFits(timeout, c', s, if sys.counter.entries[s].count == 1 then IdleFrom(sys.now) else Busy, 0)
            else TimerFits(timeout, c', s, idle, fired + if e.Fire? && e.s == s then 1 else 0)
  {
    match e {
      case Create(_, s') => IncKeepsTimer(timeout, sys.counter, s', s, idle, fired);
      case CountIn(_, s') => IncKeepsTimer(timeout, sys.counter, s', s, idle, fired);
      case RunDec(_, s') => DecKeepsTimer(timeout, sys.counter, s', sys.now, s, idle, fired);
      case _ =>
    }
  }

  lemma IncKeepsTimer(timeout: nat, c: Counter, s': SessionId, s: SessionId, idle: Idle, fired: nat)
    requires HandlesDistinct(c) && TimerFits(timeout, c, s, idle, fired)
    ensures if s' == s then TimerFits(timeout, AfterInc(c, s'), s, Busy, 0)
            else TimerFits(timeout, AfterInc(c, s'), s, idle, fired)
  {
  }

  lemma DecKeepsTimer(timeout: nat, c: Counter, s': SessionId, now: nat, s: SessionId, idle: Idle, fired: nat)
    requires HandlesDistinct(c) && TimerFits(timeout, c, s, idle, fired)
    requires s' in c.entries && c.entries[s'].Active? && c.entries[s'].count > 0
    ensures if s' != s then TimerFits(timeout, AfterDec(c, s', now, timeout), s, idle, fired)
            else TimerFits(timeout, AfterDec(c, s', now, timeout), s,
                           if c.entries[s].count == 1 then IdleFrom(now) else Busy, 0)
  {
  }

  /** The position of the decrement that opened the current idle period. */
  lemma {:induction false} IdleWitness(trace: seq<Event>, s: SessionId) returns (j: nat)
    requires IdleSince(trace, s).IdleFrom?
    ensures j < |trace| && IsDec(trace[j], s)
    ensures Incs(trace[..j + 1], s) == Decs(trace[..j + 1], s)
    ensures Now(trace[..j]) == IdleSince(trace, s).time
    ensures forall k | j < k < |trace| :: !IsInc(trace[k], s) && !IsDec(trace[k], s)
    decreases |trace|
  {
    if IsDec(Last(trace), s) {
      j := |trace| - 1;
      assert trace[..j + 1] == trace;
    } else {
      j := IdleWitness(Init(trace), s);
      assert Init(trace)[..j + 1] == trace[..j + 1] && Init(trace)[..j] == trace[..j];
    }
  }

  /** Cleanup is called for s only when no access is outstanding, at least one timeout after
      the decrement that left none, with no access begun since, and once in that period. */
  lemma CleanupOnlyWhenIdle(timeout: nat, trace: seq<Event>, t: TimerId, s: SessionId) returns (j: nat)
    requires IsRun(timeout, trace + [Fire(t, s)])
    ensures j < |trace| && IsDec(trace[j], s)
    ensures Incs(trace[..j + 1], s) == Decs(trace[..j + 1], s)
    ensures forall k | j < k < |trace| :: !IsInc(trace[k], s) && !(trace[k].Fire? && trace[k].s == s)
    ensures Now(trace) >= Now(trace[..j]) + timeout
    ensures IsRun(timeout, trace) && Users(After(timeout, trace), s) == {}
  {
    var full := trace + [Fire(t, s)];
    assert Init(full) == trace && Last(full) == Fire(t, s);
    IdleTimer(timeout, trace, s);
    TimerIdentity(timeout, trace);
    Accounting(timeout, trace, s);
    j := IdleWitness(trace, s);
    NoFireWhenNoneCounted(trace, s, j);
  }

  lemma {:induction false} NoFireWhenNoneCounted(trace: seq<Event>, s: SessionId, j: nat)
    requires j < |trace| && FiredSinceIdle(trace, s) == 0
    requires forall k | j < k < |trace| :: !IsInc(trace[k], s) && !IsDec(trace[k], s)
    ensures forall k | j < k < |trace| :: !(trace[k].Fire? && trace[k].s == s)
    decreases |trace|
  {
    if j < |trace| - 1 {
      NoFireWhenNoneCounted(Init(trace), s, j);
      forall k | j < k < |trace| ensures !(trace[k].Fire? && trace[k].s == s) {
        if k < |trace| - 1 {
          assert trace[k] == Init(trace)[k];
        }
      }
    }
  }

  /** An idle period that lasts for the timeout has had its one cleanup call, or the call is
      due now: exactly one timer event of s is possible, that of the stored handle. */
  lemma IdlePeriodFiresExactlyOnce(timeout: nat, trace: seq<Event>, s: SessionId)
    requires IsRun(timeout, trace)
    requires IdleSince(trace, s).IdleFrom? && Now(trace) >= IdleSince(trace, s).time + timeout
    ensures FiredSinceIdle(trace, s) <= 1
    ensures var sys := After(timeout, trace);
            && s in sys.counter.entries && sys.counter.entries[s].Timeout?
            && forall t :: Enabled(sys, Fire(t, s)) <==>
                           FiredSinceIdle(trace, s) == 0 && t == sys.counter.entries[s].handle
  {
    IdleTimer(timeout, trace, s);
    TimerIdentity(timeout, trace);
  }

  // ---- which sessions are given back ----

  predicate IsRemoval(e: Event, s: SessionId) {
    (e.Remove? || e.Cleanup?) && e.s == s
  }

  predicate Created(trace: seq<Event>, s: SessionId) {
    trace != [] && (Created(Init(trace), s) || (Last(trace).Create? && Last(trace).s == s))
  }

  /** A DELETE or a cleanup has taken s out of the table, or tried to. */
  predicate Removed(trace: seq<Event>, s: SessionId) {
    trace != [] && (Removed(Init(trace), s) || IsRemoval(Last(trace), s))
  }

  /** Some DELETE came to remove s after it had been removed. */
  predicate LateDelete(trace: seq<Event>, s: SessionId) {
    trace != [] &&
    (LateDelete(Init(trace), s) || (Last(trace).Remove? && Last(trace).s == s && Removed(Init(trace), s)))
  }

  /** Only sessions that were created are ever referred to. */
  ghost predicate AllIssued(sys: System) {
    && sys.live <= sys.issued
    && (forall h | h in sys.handlers :: sys.handlers[h].session in sys.issued)
    && (forall t | t in sys.counter.timers :: sys.counter.timers[t].session in sys.issued)
    && (forall t | t in sys.cleanups :: sys.cleanups[t] in sys.issued)
  }

  /** The table holds exactly the sessions that were created and that no DELETE and no cleanup
      has removed. */
  lemma {:induction false} LiveIff(timeout: nat, trace: seq<Event>, s: SessionId)
    requires IsRun(timeout, trace)
    ensures AllIssued(After(timeout, trace))
    ensures s in After(timeout, trace).live <==> Created(trace, s) && !Removed(trace, s)
    ensures s in After(timeout, trace).issued <==> Created(trace, s)
    ensures Removed(trace, s) ==> Created(trace, s)
    decreases |trace|
  {
    if trace != [] {
      LiveIff(timeout, Init(trace), s);
      LiveStep(timeout, After(timeout, Init(trace)), Last(trace), s);
      IssuedStep(timeout, After(timeout, Init(trace)), Last(trace));
    }
  }

  lemma LiveStep(timeout: nat, sys: System, e: Event, s: SessionId)
    requires Enabled(sys, e) && AllIssued(sys)
    ensures var creates := e.Create? && e.s == s;
            && (s in Next(timeout, sys, e).live <==> (s in sys.live || creates) && !IsRemoval(e, s))
            && (s in Next(timeout, sys, e).issued <==> s in sys.issued || creates)
            && (IsRemoval(e, s) ==> s in sys.issued)
            && (creates ==> s !in sys.issued)
  {
  }

  lemma IssuedStep(timeout: nat, sys: System, e: Event)
    requires Enabled(sys, e) && AllIssued(sys)
    ensures AllIssued(Next(timeout, sys, e))
  {
  }

  predicate LeakedIn(sys: System, h: HandlerId, s: SessionId) {
    h in sys.handlers && sys.handlers[h].session == s && sys.handlers[h].access == Leaked
  }

  /** A DELETE leaks its access if and only if the session has been removed before. */
  lemma DeleteLeaksIff(timeout: nat, trace: seq<Event>, h: HandlerId, s: SessionId)
    requires IsRun(timeout, trace + [Remove(h, s)])
    ensures LeakedIn(After(timeout, trace + [Remove(h, s)]), h, s) <==> Removed(trace, s)
  {
    var full := trace + [Remove(h, s)];
    assert Init(full) == trace && Last(full) == Remove(h, s);
    LiveIff(timeout, trace, s);
  }

  predicate HasLeak(sys: System, s: SessionId) {
    exists h | h in sys.handlers :: LeakedIn(sys, h, s)
  }

  /** Some access of s has leaked if and only if some DELETE of s came too late. */
  lemma {:induction false} LeakedIff(timeout: nat, trace: seq<Event>, s: SessionId)
    requires IsRun(timeout, trace)
    ensures LateDelete(trace, s) <==> HasLeak(After(timeout, trace), s)
    decreases |trace|
  {
    if trace != [] {
      LeakedIff(timeout, Init(trace), s);
      LiveIff(timeout, Init(trace), s);
      HasLeakStep(timeout, After(timeout, Init(trace)), Last(trace), s);
    }
  }

  lemma HasLeakStep(timeout: nat, sys: System, e: Event, s: SessionId)
    requires Enabled(sys, e)
    ensures HasLeak(Next(timeout, sys, e), s) <==> HasLeak(sys, s) || (e.Remove? && e.s == s && s !in sys.live)
  {
    var next := Next(timeout, sys, e);
    forall h ensures LeakedIn(next, h, s) <==> LeakedIn(sys, h, s) || (e == Remove(h, s) && s !in sys.live) {
      LeaksStep(timeout, sys, e, h, s);
    }
    if h :| h in sys.handlers && LeakedIn(sys, h, s) {
      assert LeakedIn(next, h, s);
    }
    if e.Remove? && e.s == s && s !in sys.live {
      assert LeakedIn(next, e.h, s);
    }
  }

  lemma LeaksStep(timeout: nat, sys: System, e: Event, h: HandlerId, s: SessionId)
    requires Enabled(sys, e)
    ensures LeakedIn(Next(timeout, sys, e), h, s) <==>
            LeakedIn(sys, h, s) || (e == Remove(h, s) && s !in sys.live)
  {
  }

  /** All a handler will do with its session is done. */
  predicate Finished(a: Access) {
    a.Leaked? || (a.Guarded? && a.release == Completed)
  }

  /** When all handlers of a session are through with it, the session is idle, so that its
      timer runs or has fired, if and only if no DELETE of it came too late. */
  lemma SessionGivenBackIff(timeout: nat, trace: seq<Event>, s: SessionId)
    requires IsRun(timeout, trace) && Incs(trace, s) > 0
    requires var hs := After(timeout, trace).handlers;
             forall h | h in hs && hs[h].session == s :: Finished(hs[h].access)
    ensures IdleSince(trace, s).IdleFrom? <==> !LateDelete(trace, s)
  {
    var sys := After(timeout, trace);
    Accounting(timeout, trace, s);
    IdleTimer(timeout, trace, s);
    LeakedIff(timeout, trace, s);
    if LateDelete(trace, s) {
      var h :| h in sys.handlers && LeakedIn(sys, h, s);
      assert h in Users(sys, s);
    } else {
      forall h ensures h !in Users(sys, s) {
        assert !LeakedIn(sys, h, s);
      }
      assert Users(sys, s) == {};
    }
  }

  /** A DELETE that lost the removal race is never given back: from then on its session is
      in use for ever and no idle timer of it can fire. */
  lemma LeakedDeletePinsSession(timeout: nat, trace: seq<Event>, more: seq<Event>, h: HandlerId, s: SessionId)
    requires IsRun(timeout, trace + more)
    requires IsRun(timeout, trace)
    requires h in After(timeout, trace).handlers && After(timeout, trace).handlers[h] == Handler(Delete, s, Leaked)
    ensures var c := After(timeout, trace + more).counter;
            && s in c.entries && c.entries[s].Active?
            && forall t | t in c.timers :: c.timers[t].session != s
  {
    LeakedStays(timeout, trace, more, h);
    Accounting(timeout, trace + more, s);
    IdleTimer(timeout, trace + more, s);
    assert h in Users(After(timeout, trace + more), s);
  }

  lemma {:induction false} LeakedStays(timeout: nat, trace: seq<Event>, more: seq<Event>, h: HandlerId)
    requires IsRun(timeout, trace + more)
    requires IsRun(timeout, trace)
    requires h in After(timeout, trace).handlers && After(timeout, trace).handlers[h].access == Leaked
    ensures h in After(timeout, trace + more).handlers
    ensures After(timeout, trace + more).handlers[h] == After(timeout, trace).handlers[h]
    decreases |more|
  {
    if more == [] {
      assert trace + more == trace;
    } else {
      assert Init(trace + more) == trace + Init(more);
      LeakedStays(timeout, trace, Init(more), h);
      LeakedStep(timeout, After(timeout, trace + Init(more)), Last(more), h);
    }
  }

  lemma LeakedStep(timeout: nat, sys: System, e: Event, h: HandlerId)
    requires Enabled(sys, e) && h in sys.handlers && sys.handlers[h].access == Leaked
    ensures h in Next(timeout, sys, e).handlers && Next(timeout, sys, e).handlers[h] == sys.handlers[h]
  {
  }

  /** Two handlers look a session up, and both come to delete it. */
  const TWO_DELETES: seq<Event> := [Create(0, "s"), Lookup(1, Delete, "s"), Lookup(2, Delete, "s"),
                                    CountIn(1, "s"), CountIn(2, "s"), Remove(1, "s"), Remove(2, "s")]

  /** Where that run stands after its first n events. */
  function TwoDeletesState(n: nat): System
    requires n <= 7
  {
    var first := Handler(Delete, "s", if n < 4 then LookedUp else if n < 6 then Counted else Guarded(1, Held));
    var second := Handler(Delete, "s", if n < 5 then LookedUp else if n < 7 then Counted else Leaked);
    var creator := Handler(Post, "s", Counted);
    if n == 0 then START
    else
      System(Counter(map["s" := Active(if n < 4 then 1 else if n == 4 then 2 else 3)], map[], 0),
             if n < 6 then {"s"} else {}, {"s"},
             if n == 1 then map[0 := creator] else if n == 2 then map[0 := creator, 1 := first]
             else map[0 := creator, 1 := first, 2 := second],
             map[], 0)
  }

  lemma TwoDeletesStep(timeout: nat, n: nat)
    requires n < 7
    ensures Enabled(TwoDeletesState(n), TWO_DELETES[n])
    ensures Next(timeout, TwoDeletesState(n), TWO_DELETES[n]) == TwoDeletesState(n + 1)
  {
  }

  lemma {:induction false} TwoDeletesReach(timeout: nat, n: nat)
    requires n <= 7
    ensures IsRun(timeout, TWO_DELETES[..n]) && After(timeout, TWO_DELETES[..n]) == TwoDeletesState(n)
  {
    if n > 0 {
      TwoDeletesReach(timeout, n - 1);
      TwoDeletesStep(timeout, n - 1);
      Extend(timeout, TWO_DELETES[..n - 1], TWO_DELETES[n - 1]);
      assert TWO_DELETES[..n] == TWO_DELETES[..n - 1] + [TWO_DELETES[n - 1]];
    }
  }

  /** Two concurrent DELETEs of a session are enough to leak one of them. */
  lemma SecondDeleteLeaks(timeout: nat)
    ensures IsRun(timeout, TWO_DELETES)
    ensures After(timeout, TWO_DELETES).handlers[2] == Handler(Delete, "s", Leaked)
  {
    TwoDeletesReach(timeout, 7);
    assert TWO_DELETES[..7] == TWO_DELETES;
  }

  // ---- which steps are possible ----

  /** Handler h has come into being. */
  predicate Begun(trace: seq<Event>, h: HandlerId) {
    trace != [] &&
    (Begun(Init(trace), h) || ((Last(trace).Create? || Last(trace).Lookup?) && Last(trace).h == h))
  }

  lemma {:induction false} BegunIff(timeout: nat, trace: seq<Event>, h: HandlerId)
    requires IsRun(timeout, trace)
    ensures Begun(trace, h) <==> h in After(timeout, trace).handlers
    decreases |trace|
  {
    if trace != [] {
      BegunIff(timeout, Init(trace), h);
      BegunStep(timeout, After(timeout, Init(trace)), Last(trace), h);
    }
  }

  lemma BegunStep(timeout: nat, sys: System, e: Event, h: HandlerId)
    requires Enabled(sys, e)
    ensures h in Next(timeout, sys, e).handlers <==> h in sys.handlers || ((e.Create? || e.Lookup?) && e.h == h)
  {
  }

  /** A lookup of whatever kind finds a session if and only if it was created and neither a
      DELETE nor a cleanup has removed it; a session is created if and only if its id is new. */
  lemma LookupIff(timeout: nat, trace: seq<Event>, h: HandlerId, kind: Kind, s: SessionId)
    requires IsRun(timeout, trace)
    ensures var sys := After(timeout, trace);
            && (Enabled(sys, Lookup(h, kind, s)) <==> !Begun(trace, h) && Created(trace, s) && !Removed(trace, s))
            && (Enabled(sys, Create(h, s)) <==> !Begun(trace, h) && !Created(trace, s))
  {
    BegunIff(timeout, trace, h);
    LiveIff(timeout, trace, s);
  }

  /** What a handler that finds its session goes through, with a guard that is not cloned. */
  function Script(h: HandlerId, kind: Kind, s: SessionId): seq<Event> {
    [Lookup(h, kind, s), CountIn(h, s), if kind == Delete then Remove(h, s) else Attach(h), DropGuard(h), RunDec(h, s)]
  }

  /** A POST, GET or DELETE of a session that is there can go through to its end; it takes the
      session out of the table if and only if it is a DELETE, and leaves it as often in use as
      it was. */
  lemma ScriptRuns(timeout: nat, trace: seq<Event>, h: HandlerId, kind: Kind, s: SessionId)
    requires IsRun(timeout, trace) && !Begun(trace, h) && Created(trace, s) && !Removed(trace, s)
    ensures IsRun(timeout, trace + Script(h, kind, s))
    ensures var sys, sys' := After(timeout, trace), After(timeout, trace + Script(h, kind, s));
            && sys'.live == (if kind == Delete then sys.live - {s} else sys.live)
            && Users(sys', s) == Users(sys, s)
  {
    BegunIff(timeout, trace, h);
    LiveIff(timeout, trace, s);
    ScriptBegins(timeout, trace, h, kind, s);
    var counted := trace + [Lookup(h, kind, s), CountIn(h, s)];
    ScriptEnds(timeout, counted, h, kind, s);
    var e := if kind == Delete then Remove(h, s) else Attach(h);
    assert trace + Script(h, kind, s) == counted + [e, DropGuard(h), RunDec(h, s)];
    SameUsers(After(timeout, trace), After(timeout, trace + Script(h, kind, s)), h, s);
  }

  lemma ScriptBegins(timeout: nat, trace: seq<Event>, h: HandlerId, kind: Kind, s: SessionId)
    requires IsRun(timeout, trace) && s in After(timeout, trace).live && h !in After(timeout, trace).handlers
    ensures var counted := trace + [Lookup(h, kind, s), CountIn(h, s)];
            && IsRun(timeout, counted)
            && After(timeout, counted).handlers == After(timeout, trace).handlers[h := Handler(kind, s, Counted)]
            && After(timeout, counted).live == After(timeout, trace).live
  {
    CountsIn(timeout, After(timeout, trace), h, kind, s);
    Extend(timeout, trace, Lookup(h, kind, s));
    Extend(timeout, trace + [Lookup(h, kind, s)], CountIn(h, s));
    assert trace + [Lookup(h, kind, s), CountIn(h, s)] == trace + [Lookup(h, kind, s)] + [CountIn(h, s)];
  }

  lemma ScriptEnds(timeout: nat, trace: seq<Event>, h: HandlerId, kind: Kind, s: SessionId)
    requires IsRun(timeout, trace) && s in After(timeout, trace).live && h in After(timeout, trace).handlers
    requires After(timeout, trace).handlers[h] == Handler(kind, s, Counted)
    ensures var e := if kind == Delete then Remove(h, s) else Attach(h);
            var ended := trace + [e, DropGuard(h), RunDec(h, s)];
            && IsRun(timeout, ended)
            && After(timeout, ended).handlers ==
               After(timeout, trace).handlers[h := Handler(kind, s, Guarded(0, Completed))]
            && After(timeout, ended).live ==
               (if kind == Delete then After(timeout, trace).live - {s} else After(timeout, trace).live)
  {
    var e := if kind == Delete then Remove(h, s) else Attach(h);
    GetsGuard(timeout, After(timeout, trace), h, kind, s);
    Extend(timeout, trace, e);
    GivesBack(timeout, After(timeout, trace + [e]), h, s);
    Extend(timeout, trace + [e], DropGuard(h));
    Extend(timeout, trace + [e] + [DropGuard(h)], RunDec(h, s));
    assert trace + [e, DropGuard(h), RunDec(h, s)] == trace + [e] + [DropGuard(h)] + [RunDec(h, s)];
  }

  lemma SameUsers(sys: System, sys': System, h: HandlerId, s: SessionId)
    requires h !in sys.handlers && h in sys'.handlers && Finished(sys'.handlers[h].access)
    requires !sys'.handlers[h].access.Leaked? && sys'.handlers == sys.handlers[h := sys'.handlers[h]]
    ensures Users(sys', s) == Users(sys, s)
  {
  }

  lemma CountsIn(timeout: nat, sys: System, h: HandlerId, kind: Kind, s: SessionId)
    requires s in sys.live && h !in sys.handlers
    ensures Enabled(sys, Lookup(h, kind, s))
    ensures var sys1 := Next(timeout, sys, Lookup(h, kind, s));
            Enabled(sys1, CountIn(h, s)) &&
            var sys2 := Next(timeout, sys1, CountIn(h, s));
            && sys2.handlers == sys.handlers[h := Handler(kind, s, Counted)]
            && sys2.live == sys.live && sys2.issued == sys.issued
  {
  }

  lemma GetsGuard(timeout: nat, sys: System, h: HandlerId, kind: Kind, s: SessionId)
    requires s in sys.live && h in sys.handlers && sys.handlers[h] == Handler(kind, s, Counted)
    ensures var e := if kind == Delete then Remove(h, s) else Attach(h);
            Enabled(sys, e) &&
            var sys' := Next(timeout, sys, e);
            && sys'.handlers == sys.handlers[h := Handler(kind, s, Guarded(1, Held))]
            && sys'.live == (if kind == Delete then sys.live - {s} else sys.live)
  {
  }

  lemma GivesBack(timeout: nat, sys: System, h: HandlerId, s: SessionId)
    requires h in sys.handlers && sys.handlers[h].session == s && sys.handlers[h].access == Guarded(1, Held)
    ensures Enabled(sys, DropGuard(h))
    ensures var sys1 := Next(timeout, sys, DropGuard(h));
            Enabled(sys1, RunDec(h, s)) &&
            var sys2 := Next(timeout, sys1, RunDec(h, s));
            && sys2.handlers == sys.handlers[h := sys.handlers[h].(access := Guarded(0, Completed))]
            && sys2.live == sys.live
  {
  }

  /** How far a handler is from being through with its session. */
  function Remaining(a: Access): nat {
    match a
    case LookedUp => 4
    case Counted => 3
    case Guarded(_, release) => (match release case Held => 2 case Spawned => 1 case Completed => 0)
    case Leaked => 0
  }

  /** No handler gets stuck: wherever it is in whatever run, steps of its own bring it to its
      end. */
  lemma {:induction false} HandlerCanFinish(timeout: nat, trace: seq<Event>, h: HandlerId) returns (more: seq<Event>)
    requires IsRun(timeout, trace) && h in After(timeout, trace).handlers
    ensures IsRun(timeout, trace + more) && h in After(timeout, trace + more).handlers
    ensures Finished(After(timeout, trace + more).handlers[h].access)
    ensures |more| <= Remaining(After(timeout, trace).handlers[h].access)
    decreases Remaining(After(timeout, trace).handlers[h].access)
  {
    if Finished(After(timeout, trace).handlers[h].access) {
      more := [];
      assert trace + more == trace;
    } else {
      DroppedGuardFires(timeout, trace, h);
      var e := Progress(timeout, After(timeout, trace), h);
      Extend(timeout, trace, e);
      var rest := HandlerCanFinish(timeout, trace + [e], h);
      more := [e] + rest;
      assert trace + more == trace + [e] + rest;
    }
  }

  lemma Progress(timeout: nat, sys: System, h: HandlerId) returns (e: Event)
    requires h in sys.handlers && !Finished(sys.handlers[h].access) && !Forgotten(sys, h)
    ensures Enabled(sys, e) && h in Next(timeout, sys, e).handlers
    ensures Remaining(Next(timeout, sys, e).handlers[h].access) < Remaining(sys.handlers[h].access)
  {
    var Handler(kind, s, access) := sys.handlers[h];
    match access {
      case LookedUp => e := CountIn(h, s);
      case Counted => e := if kind == Delete then Remove(h, s) else Attach(h);
      case Guarded(_, release) => e := if release == Held then DropGuard(h) else RunDec(h, s);
    }
  }

  /** A guard can be cloned and dropped as long as a clone of it is left, and a clone more has to
      be dropped after it was cloned. */
  lemma ClonesAreCounted(timeout: nat, sys: System, h: HandlerId)
    requires h in sys.handlers && sys.handlers[h].access.Guarded?
    ensures Enabled(sys, CloneGuard(h)) <==> sys.handlers[h].access.clones > 0
    ensures Enabled(sys, DropGuard(h)) <==> sys.handlers[h].access.clones > 0
    ensures Enabled(sys, CloneGuard(h)) ==>
              var after := Next(timeout, Next(timeout, sys, CloneGuard(h)), DropGuard(h)).handlers;
              && h in after && after[h].access.Guarded? && after[h].access.clones == sys.handlers[h].access.clones
              && after[h].access.release != Held
  {
  }

  /** A cleanup call leaves a removal behind, which takes the session out of the table. */
  lemma FireSpawnsRemoval(timeout: nat, trace: seq<Event>, t: TimerId, s: SessionId)
    requires IsRun(timeout, trace + [Fire(t, s)])
    ensures IsRun(timeout, trace + [Fire(t, s)] + [Cleanup(t, s)])
    ensures IsRun(timeout, trace)
    ensures After(timeout, trace + [Fire(t, s)] + [Cleanup(t, s)]).live == After(timeout, trace).live - {s}
  {
    var fired := trace + [Fire(t, s)];
    assert Init(fired) == trace && Last(fired) == Fire(t, s);
    Extend(timeout, fired, Cleanup(t, s));
  }

  // ---- the gap between the cleanup call and the removal it spawns ----

  /** A handler that looked the session up before the timer fired counts itself in after. */
  function Race(timeout: nat): seq<Event> {
    [Create(0, "s"), Attach(0), DropGuard(0), RunDec(0, "s"), Tick(timeout),
     Lookup(1, Get, "s"), Fire(0, "s"), CountIn(1, "s")]
  }

  /** The removal that cleanup spawns runs later than the call, and may by then take away a
      session that is in use again, whatever the timeout. */
  lemma CleanupMayRemoveSessionInUse(timeout: nat)
    ensures IsRun(timeout, Race(timeout))
    ensures var sys := After(timeout, Race(timeout));
            && 1 in Users(sys, "s") && "s" in sys.live
            && Enabled(sys, Cleanup(0, "s")) && "s" !in Next(timeout, sys, Cleanup(0, "s")).live
  {
    RaceState(timeout, 8);
    assert Race(timeout)[..8] == Race(timeout);
  }

  /** Where the race stands after its first n events. */
  function RaceStateAt(timeout: nat, n: nat): System
    requires n <= 8
  {
    var busy := map["s" := Active(1)];
    var idle := map["s" := Timeout(0)];
    var timer := map[0 := Timer("s", timeout)];
    var now := if n < 5 then 0 else timeout;
    var first := Handler(Post, "s", if n <= 1 then Counted else if n == 2 then Guarded(1, Held)
                                    else Guarded(0, if n == 3 then Spawned else Completed));
    if n == 0 then START
    else if n < 4 then System(Counter(busy, map[], 0), {"s"}, {"s"}, map[0 := first], map[], now)
    else if n < 6 then System(Counter(idle, timer, 1), {"s"}, {"s"}, map[0 := first], map[], now)
    else
      System(Counter(if n == 8 then busy else idle, if n == 6 then timer else map[], 1), {"s"}, {"s"},
             map[0 := first, 1 := Handler(Get, "s", if n == 8 then Counted else LookedUp)],
             if n == 6 then map[] else map[0 := "s"], now)
  }

  lemma {:induction false} RaceState(timeout: nat, n: nat)
    requires n <= 8
    ensures IsRun(timeout, Race(timeout)[..n]) && After(timeout, Race(timeout)[..n]) == RaceStateAt(timeout, n)
  {
    if n > 0 {
      RaceState(timeout, n - 1);
      RaceStep(timeout, n - 1);
      RacePrefix(timeout, n - 1);
    }
  }

  lemma RaceStep(timeout: nat, n: nat)
    requires n < 8
    ensures Enabled(RaceStateAt(timeout, n), Race(timeout)[n])
    ensures Next(timeout, RaceStateAt(timeout, n), Race(timeout)[n]) == RaceStateAt(timeout, n + 1)
  {
    if n < 4 {
      RaceOpening(timeout, n);
    } else {
      RaceEnding(timeout, n);
    }
  }

  lemma RaceOpening(timeout: nat, n: nat)
    requires n < 4
    ensures Enabled(RaceStateAt(timeout, n), Race(timeout)[n])
    ensures Next(timeout, RaceStateAt(timeout, n), Race(timeout)[n]) == RaceStateAt(timeout, n + 1)
  {
  }

  lemma RaceEnding(timeout: nat, n: nat)
    requires 4 <= n < 8
    ensures Enabled(RaceStateAt(timeout, n), Race(timeout)[n])
    ensures Next(timeout, RaceStateAt(timeout, n), Race(timeout)[n]) == RaceStateAt(timeout, n + 1)
  {
  }

  lemma RacePrefix(timeout: nat, n: nat)
    requires n < |Race(timeout)| && IsRun(timeout, Race(timeout)[..n])
    requires Enabled(After(timeout, Race(timeout)[..n]), Race(timeout)[n])
    ensures IsRun(timeout, Race(timeout)[..n + 1])
    ensures After(timeout, Race(timeout)[..n + 1]) ==
            Next(timeout, After(timeout, Race(timeout)[..n]), Race(timeout)[n])
  {
    Extend(timeout, Race(timeout)[..n], Race(timeout)[n]);
    assert Race(timeout)[..n + 1] == Race(timeout)[..n] + [Race(timeout)[n]];
  }

  /** The same run, but the removal comes before the handler has counted itself in: the handler
      then counts itself on a session that is gone. */
  lemma CleanupMayRemoveSessionLookedUp(timeout: nat)
    ensures var trace := Race(timeout)[..7] + [Cleanup(0, "s")] + [CountIn(1, "s")];
            && IsRun(timeout, trace)
            && 1 in Users(After(timeout, trace), "s") && "s" !in After(timeout, trace).live
  {
    RaceState(timeout, 7);
    Extend(timeout, Race(timeout)[..7], Cleanup(0, "s"));
    Extend(timeout, Race(timeout)[..7] + [Cleanup(0, "s")], CountIn(1, "s"));
  }

  /** The handlers that have the session in their hands: they have looked it up and go on to
      use it, or are counted as using it. */
  function Holders(sys: System, s: SessionId): set<HandlerId> {
    set h | h in sys.handlers && sys.handlers[h].session == s &&
            (sys.handlers[h].access == LookedUp || Outstanding(sys.handlers[h].access))
  }

  /** The handlers that have looked s up and not yet counted themselves in. */
  function Open(trace: seq<Event>, s: SessionId): set<HandlerId> {
    if trace == [] then {}
    else
      var e := Last(trace);
      if e.Lookup? && e.s == s then Open(Init(trace), s) + {e.h}
      else if e.CountIn? && e.s == s then Open(Init(trace), s) - {e.h}
      else Open(Init(trace), s)
  }

  function OpenIn(sys: System, s: SessionId): set<HandlerId> {
    set h | h in sys.handlers && sys.handlers[h].session == s && sys.handlers[h].access == LookedUp
  }

  lemma {:induction false} OpenIs(timeout: nat, trace: seq<Event>, s: SessionId)
    requires IsRun(timeout, trace)
    ensures Open(trace, s) == OpenIn(After(timeout, trace), s)
    decreases |trace|
  {
    if trace != [] {
      OpenIs(timeout, Init(trace), s);
      OpenStep(timeout, After(timeout, Init(trace)), Last(trace), s);
    }
  }

  lemma OpenStep(timeout: nat, sys: System, e: Event, s: SessionId)
    requires Enabled(sys, e)
    ensures OpenIn(Next(timeout, sys, e), s) ==
            if e.Lookup? && e.s == s then OpenIn(sys, s) + {e.h}
            else if e.CountIn? && e.s == s then OpenIn(sys, s) - {e.h}
            else OpenIn(sys, s)
  {
  }

  /** The removal takes the session from nobody exactly when its history is back in an idle
      period and every handler that has looked it up has counted itself in since; and whether
      it is in an idle period can be read off the counter. */
  lemma CleanupFindsSessionUnusedIff(timeout: nat, trace: seq<Event>, t: TimerId, s: SessionId)
    requires IsRun(timeout, trace + [Cleanup(t, s)])
    ensures IsRun(timeout, trace)
    ensures Holders(After(timeout, trace), s) == {} <==> IdleSince(trace, s).IdleFrom? && Open(trace, s) == {}
    ensures var c := After(timeout, trace).counter;
            IdleSince(trace, s).IdleFrom? <==> s in c.entries && c.entries[s].Timeout?
  {
    var full := trace + [Cleanup(t, s)];
    var sys := After(timeout, trace);
    assert Init(full) == trace && Last(full) == Cleanup(t, s);
    CleanupWasCounted(timeout, trace, t);
    IdleTimer(timeout, trace, s);
    Accounting(timeout, trace, s);
    OpenIs(timeout, trace, s);
    assert Holders(sys, s) == Users(sys, s) + OpenIn(sys, s);
  }

  /** Nobody holds s at any moment from `start` to the end of `more`. */
  ghost predicate FreeThroughout(timeout: nat, start: seq<Event>, more: seq<Event>, s: SessionId)
    requires IsRun(timeout, start)
    decreases |more|
  {
    && IsRun(timeout, start + more) && Holders(After(timeout, start + more), s) == {}
    && (more != [] ==> FreeThroughout(timeout, start, Init(more), s))
  }

  /** From the cleanup call on nobody holds the session, up to and including the removal, if and
      only if no lookup was open at the call and there is none in between. */
  lemma GapIsFreeIff(timeout: nat, past: seq<Event>, t: TimerId, s: SessionId, between: seq<Event>)
    requires IsRun(timeout, past + [Fire(t, s)]) && IsRun(timeout, past + [Fire(t, s)] + between)
    ensures FreeThroughout(timeout, past + [Fire(t, s)], between, s) <==>
            Open(past, s) == {} && forall e | e in between :: !(e.Lookup? && e.s == s)
  {
    var start := past + [Fire(t, s)];
    assert Init(start) == past && Last(start) == Fire(t, s);
    var j := CleanupOnlyWhenIdle(timeout, past, t, s);
    OpenIs(timeout, past, s);
    LiveIff(timeout, past, s);
    var sys := After(timeout, start);
    assert Holders(sys, s) == Users(After(timeout, past), s) + OpenIn(After(timeout, past), s);
    FreeIff(timeout, start, between, s);
  }

  lemma {:induction false} FreeIff(timeout: nat, start: seq<Event>, more: seq<Event>, s: SessionId)
    requires IsRun(timeout, start) && IsRun(timeout, start + more) && s in After(timeout, start).issued
    ensures s in After(timeout, start + more).issued
    ensures FreeThroughout(timeout, start, more, s) <==>
            Holders(After(timeout, start), s) == {} && forall e | e in more :: !(e.Lookup? && e.s == s)
    decreases |more|
  {
    if more == [] {
      assert start + more == start;
    } else {
      assert Init(start + more) == start + Init(more) && Last(start + more) == Last(more);
      assert more == Init(more) + [Last(more)];
      FreeIff(timeout, start, Init(more), s);
      HoldersStep(timeout, After(timeout, start + Init(more)), Last(more), s);
    }
  }

  lemma HoldersStep(timeout: nat, sys: System, e: Event, s: SessionId)
    requires Enabled(sys, e) && s in sys.issued
    ensures s in Next(timeout, sys, e).issued
    ensures Holders(sys, s) == {} ==> (Holders(Next(timeout, sys, e), s) == {} <==> !(e.Lookup? && e.s == s))
  {
    if Holders(sys, s) == {} {
      forall h | h in sys.handlers && sys.handlers[h].session == s ensures HasReleased(sys, h) {
        assert h !in Holders(sys, s);
      }
      HoldersAfter(timeout, sys, e, s);
    }
  }

  lemma HoldersAfter(timeout: nat, sys: System, e: Event, s: SessionId)
    requires Enabled(sys, e) && s in sys.issued
    requires forall h | h in sys.handlers && sys.handlers[h].session == s :: HasReleased(sys, h)
    ensures Holders(Next(timeout, sys, e), s) == if e.Lookup? && e.s == s then {e.h} else {}
  {
  }

  lemma {:induction false} CleanupWasCounted(timeout: nat, trace: seq<Event>, t: TimerId)
    requires IsRun(timeout, trace) && t in After(timeout, trace).cleanups
    ensures Incs(trace, After(timeout, trace).cleanups[t]) > 0
    decreases |trace|
  {
    var past, e := Init(trace), Last(trace);
    CleanupStep(timeout, After(timeout, past), e, t);
    if e.Fire? && e.t == t {
      IdleTimer(timeout, past, e.s);
    } else {
      CleanupWasCounted(timeout, past, t);
    }
  }

  lemma CleanupStep(timeout: nat, sys: System, e: Event, t: TimerId)
    requires Enabled(sys, e) && t in Next(timeout, sys, e).cleanups
    ensures if e.Fire? && e.t == t then Next(timeout, sys, e).cleanups[t] == e.s
            else t in sys.cleanups && Next(timeout, sys, e).cleanups[t] == sys.cleanups[t]
  {
  }
}
