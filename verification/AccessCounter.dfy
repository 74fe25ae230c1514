/** How many responses are using each session, and the idle timer that starts when
    that number falls to zero (rust/src/support/session_access_counter.rs). */
module AccessCounter {

  type SessionId = string

  /** Identity of a spawned timer task: what a join handle stands for. */
  type TimerId = nat

  datatype Entry = Active(count: nat) | Timeout(handle: TimerId)

  /** A task that is still asleep: it calls cleanup on `session` no earlier than `due`. */
  datatype Timer = Timer(session: SessionId, due: nat)

  /** `timers` holds exactly the tasks that were neither aborted nor have fired. */
  datatype Counter = Counter(entries: map<SessionId, Entry>, timers: map<TimerId, Timer>, spawned: nat)

  const EMPTY := Counter(map[], map[], 0)

  function AfterInc(c: Counter, s: SessionId): Counter {
    if s !in c.entries then
      c.(entries := c.entries[s := Active(1)])
    else match c.entries[s]
      case Timeout(handle) => c.(entries := c.entries[s := Active(1)], timers := c.timers - {handle})
      case Active(count) => c.(entries := c.entries[s := Active(count + 1)])
  }

  function AfterDec(c: Counter, s: SessionId, now: nat, timeout: nat): Counter {
    if s !in c.entries then c
    else match c.entries[s]
      case Timeout(_) => c
      case Active(count) =>
        if count == 0 then
          c.(entries := c.entries - {s})
        else if count == 1 then
          Counter(c.entries[s := Timeout(c.spawned)],
                  c.timers[c.spawned := Timer(s, now + timeout)],
                  c.spawned + 1)
        else
          c.(entries := c.entries[s := Active(count - 1)])
  }

  /** The counter as the source has it: a map behind a lock, updated in place. Each
      method is one section under that lock; `Fire` is a timer task waking up. */
  class SessionAccessCounter {
    const timeout: nat
    var sessions: map<SessionId, Entry>
    var timers: map<TimerId, Timer>
    var spawned: nat

    function View(): Counter
      reads this
    {
      Counter(sessions, timers, spawned)
    }

    constructor (timeout: nat)
      ensures View() == EMPTY && this.timeout == timeout
    {
      this.timeout := timeout;
      sessions, timers, spawned := map[], map[], 0;
    }

    method Inc(id: SessionId)
      modifies this
      ensures View() == AfterInc(old(View()), id)
    {
      if id !in sessions {
        sessions := sessions[id := Active(1)];
        return;
      }
      var state := sessions[id];
      sessions := sessions - {id};
      match state {
        case Timeout(handle) =>
          timers := timers - {handle};
          sessions := sessions[id := Active(1)];
        case Active(count) =>
          sessions := sessions[id := Active(count + 1)];
      }
      assert sessions == old(sessions)[id := sessions[id]];
    }

    method Dec(id: SessionId, now: nat)
      modifies this
      ensures View() == AfterDec(old(View()), id, now, timeout)
    {
      if id !in sessions {
        return;
      }
      var state := sessions[id];
      sessions := sessions - {id};
      match state {
        case Timeout(_) =>
          sessions := sessions[id := state];
          assert sessions == old(sessions);
        case Active(count) =>
          if count == 0 {
            return;
          }
          var next := count - 1;
          if next == 0 {
            var handle := spawned;
            timers := timers[handle := Timer(id, now + timeout)];
            spawned := spawned + 1;
            sessions := sessions[id := Timeout(handle)];
          } else {
            sessions := sessions[id := Active(next)];
          }
          assert sessions == old(sessions)[id := sessions[id]];
      }
    }

    /** The sleep of a live timer ends: the task is gone and hands its session to cleanup. */
    method Fire(t: TimerId, now: nat) returns (session: SessionId)
      requires t in timers && timers[t].due <= now
      modifies this
      ensures session == old(timers)[t].session
      ensures View() == old(View()).(timers := old(timers) - {t})
    {
      session := timers[t].session;
      timers := timers - {t};
    }
  }
}
