/** The objects of the stateful gateway (rust/src/gateways/stdio_to_streamable_http.rs): the
    table of sessions, the access counter and the response guards. Each method is one step
    that no other task can interrupt, and does to these objects what `SessionProtocol.Next`
    says, so every promise about runs of the protocol is a promise about them. */
module SessionGateway {
  import opened AccessCounter
  import opened SessionProtocol

  /** What all clones of a response guard share. */
  class GuardInner {
    const session: SessionId
    var fired: bool

    constructor (session: SessionId)
      ensures this.session == session && !fired
    {
      this.session := session;
      fired := false;
    }

    /** One clone goes out of scope: the first one to do so spawns the decrement. */
    method Drop() returns (spawns: bool)
      modifies this
      ensures fired && spawns == !old(fired)
    {
      spawns := !fired;
      fired := true;
    }
  }

  /** The guard of handler h has fired exactly when its decrement was spawned. */
  ghost predicate GuardFits(sys: System, h: HandlerId, guard: GuardInner)
    reads guard
  {
    && h in sys.handlers && sys.handlers[h].access.Guarded?
    && guard.session == sys.handlers[h].session
    && (guard.fired <==> sys.handlers[h].access.release != Held)
  }

  class Gateway {
    const counter: SessionAccessCounter
    var sessions: set<SessionId>
    var guards: map<HandlerId, GuardInner>
    var now: nat
    ghost var sys: System

    ghost predicate Valid()
      reads this, counter, guards.Values
    {
      && counter.View() == sys.counter && sessions == sys.live && now == sys.now
      && (forall h | h in sys.handlers && sys.handlers[h].access.Guarded? :: h in guards)
      && (forall h | h in guards :: GuardFits(sys, h, guards[h]))
      && (forall h, h' | h in guards && h' in guards && h != h' :: guards[h] != guards[h'])
    }

    constructor (timeout: nat)
      ensures Valid() && sys == START && counter.timeout == timeout && fresh(counter)
    {
      counter := new SessionAccessCounter(timeout);
      sessions, guards, now := {}, map[], 0;
      sys := START;
    }

    /** `create_session`: the lock on the sessions is held across both updates. */
    method CreateSession(h: HandlerId, id: SessionId)
      requires Valid() && Enabled(sys, Create(h, id))
      modifies this`sessions, this`sys, counter
      ensures Valid() && sys == Next(counter.timeout, old(sys), Create(h, id))
      ensures sessions == old(sessions) + {id}
    {
      sessions := sessions + {id};
      counter.Inc(id);
      sys := Next(counter.timeout, sys, Create(h, id));
    }

    /** `get_session`, on behalf of a handler that goes on only when the session is there. */
    method GetSession(h: HandlerId, kind: Kind, id: SessionId) returns (found: bool)
      requires Valid() && h !in sys.handlers
      modifies this`sys
      ensures Valid() && (found <==> id in old(sessions))
      ensures found ==> Enabled(old(sys), Lookup(h, kind, id))
      ensures sys == if found then Next(counter.timeout, old(sys), Lookup(h, kind, id)) else old(sys)
    {
      found := id in sessions;
      if found {
        sys := Next(counter.timeout, sys, Lookup(h, kind, id));
      }
    }

    method SessionInc(h: HandlerId, id: SessionId)
      requires Valid() && Enabled(sys, CountIn(h, id))
      modifies this`sys, counter
      ensures Valid() && sys == Next(counter.timeout, old(sys), CountIn(h, id))
    {
      counter.Inc(id);
      sys := Next(counter.timeout, sys, CountIn(h, id));
    }

    /** `attach_session_guard` at the end of a POST or GET. */
    method AttachGuard(h: HandlerId, id: SessionId)
      requires Valid() && Enabled(sys, Attach(h)) && id == sys.handlers[h].session
      modifies this`sys, this`guards
      ensures Valid() && sys == Next(counter.timeout, old(sys), Attach(h))
    {
      var guard := new GuardInner(id);
      guards := guards[h := guard];
      sys := Next(counter.timeout, sys, Attach(h));
    }

    /** The end of a DELETE: its response carries a guard only when it was the handler that
        removed the session. */
    method RemoveSession(h: HandlerId, id: SessionId) returns (removed: bool)
      requires Valid() && Enabled(sys, Remove(h, id))
      modifies this`sys, this`sessions, this`guards
      ensures Valid() && sys == Next(counter.timeout, old(sys), Remove(h, id))
      ensures removed == (id in old(sessions)) && id !in sessions
      ensures removed <==> h in guards
    {
      ghost var next := Next(counter.timeout, sys, Remove(h, id));
      removed := id in sessions;
      if removed {
        sessions := sessions - {id};
        var guard := new GuardInner(id);
        guards := guards[h := guard];
        assert GuardFits(next, h, guard);
      }
      sys := next;
    }

    /** A clone of a guard, or the response that holds it, goes out of scope. */
    method DropClone(h: HandlerId) returns (spawns: bool)
      requires Valid() && Enabled(sys, DropGuard(h))
      modifies this`sys, guards.Values
      ensures Valid() && sys == Next(counter.timeout, old(sys), DropGuard(h))
      ensures spawns <==> !Enabled(old(sys), RunDec(h, old(sys).handlers[h].session)) &&
                          Enabled(sys, RunDec(h, sys.handlers[h].session))
    {
      spawns := guards[h].Drop();
      sys := Next(counter.timeout, sys, DropGuard(h));
    }

    method CloneOf(h: HandlerId)
      requires Valid() && Enabled(sys, CloneGuard(h))
      modifies this`sys
      ensures Valid() && sys == Next(counter.timeout, old(sys), CloneGuard(h))
    {
      sys := Next(counter.timeout, sys, CloneGuard(h));
    }

    /** The spawned decrement of a guard. */
    method SessionDec(h: HandlerId)
      requires Valid() && h in sys.handlers && Enabled(sys, RunDec(h, sys.handlers[h].session))
      modifies this`sys, counter
      ensures Valid() && sys == Next(counter.timeout, old(sys), RunDec(h, old(sys).handlers[h].session))
    {
      var id := guards[h].session;
      counter.Dec(id, now);
      sys := Next(counter.timeout, sys, RunDec(h, id));
    }

    method Advance(d: nat)
      requires Valid()
      modifies this`sys, this`now
      ensures Valid() && sys == Next(counter.timeout, old(sys), Tick(d))
    {
      now := now + d;
      sys := Next(counter.timeout, sys, Tick(d));
    }

    /** A timer wakes up and calls cleanup, which spawns the removal of the session. */
    method WakeTimer(t: TimerId) returns (id: SessionId)
      requires Valid() && t in counter.timers && counter.timers[t].due <= now
      modifies this`sys, counter
      ensures Valid() && Enabled(old(sys), Fire(t, id)) && sys == Next(counter.timeout, old(sys), Fire(t, id))
    {
      id := counter.Fire(t, now);
      sys := Next(counter.timeout, sys, Fire(t, id));
    }

    /** The spawned removal. */
    method CleanUp(t: TimerId, id: SessionId)
      requires Valid() && Enabled(sys, Cleanup(t, id))
      modifies this`sys, this`sessions
      ensures Valid() && sys == Next(counter.timeout, old(sys), Cleanup(t, id))
      ensures sessions == old(sessions) - {id}
    {
      sessions := sessions - {id};
      sys := Next(counter.timeout, sys, Cleanup(t, id));
    }
  }
}
