/**
 The driver agent's runtime as the program has it: an object whose methods update the connection and the session
 table.
 */
module AgentRuntimes {
  import opened Text
  import opened AgentLog
  import opened AgentSessions

  predicate SomeSessionFails(sessions: map<string, Option<nat>>, failing: set<nat>) {
    exists id :: id in sessions && sessions[id].Some? && sessions[id].value in failing
  }

  lemma CloseOneMore(a: Agent, order: seq<string>, id: string)
    ensures CloseSessions(a, order + [id]) == CloseOne(CloseSessions(a, order), id)
  {
    assert (order + [id])[..|order|] == order;
  }

  lemma OneLessFails(sessions: map<string, Option<nat>>, id: string, failing: set<nat>)
    requires id in sessions
    ensures SomeSessionFails(sessions, failing)
         == ((sessions[id].Some? && sessions[id].value in failing) || SomeSessionFails(sessions - {id}, failing))
  {
    if other :| other in sessions && sessions[other].Some? && sessions[other].value in failing {
      assert other == id || other in sessions - {id};
    }
  }

  class AgentRuntime {
    var inst: Option<nat>
    var sessions: map<string, Option<nat>>
    var nextSessionID: nat
    var log: Log

    ghost function State(): Agent
      reads this
    {
      Agent(inst, sessions, nextSessionID, log)
    }

    constructor ()
      ensures State() == START
    {
      inst, sessions, nextSessionID, log := None, map[], 0, [];
    }

    method NextID() returns (id: string)
      modifies this
      ensures id == SessionID(old(nextSessionID) + 1)
      ensures State() == old(State()).(nextSessionID := old(nextSessionID) + 1)
    {
      nextSessionID := nextSessionID + 1;
      id := SessionID(nextSessionID);
    }

    method Session(sessionID: string) returns (found: Resolution)
      ensures found == Resolve(State(), sessionID)
    {
      var id := TrimSpace(sessionID);
      if id == "" {
        return NoSession;
      }
      if id !in sessions || sessions[id].None? {
        return Unknown;
      }
      found := Resolution.Session(sessions[id].value);
    }

    method CloseSession(sessionID: string, failures: Failures) returns (response: Response)
      modifies this
      ensures (State(), response) == HandleCloseSession(old(State()), Request.CloseSession(sessionID, failures))
    {
      var id := TrimSpace(sessionID);
      if id == "" || id !in sessions {
        return Failed;
      }
      var session := sessions[id];
      sessions := sessions - {id};
      if session.None? {
        return Failed;
      }
      log := log + [SessionClosed(session.value)];
      response := if session.value in failures.sessions then Failed else Done;
    }

    /** Closes all sessions, in the order in which the map is walked, and then the connection. */
    method CloseEverything(failures: Failures) returns (failed: bool, ghost order: seq<string>)
      modifies this
      ensures Covers(order, old(sessions)) && State() == CloseAll(old(State()), order)
      ensures failed == CloseFails(old(State()), failures)
    {
      failed, order := false, [];
      while sessions != map[]
        invariant State() == CloseSessions(old(State()), order) && inst == old(inst)
        invariant forall id :: id in old(sessions) ==> id in sessions || id in order
        invariant (failed || SomeSessionFails(sessions, failures.sessions))
               == SomeSessionFails(old(sessions), failures.sessions)
        decreases sessions.Keys
      {
        var id :| id in sessions;
        var session := sessions[id];
        CloseOneMore(old(State()), order, id);
        OneLessFails(sessions, id, failures.sessions);
        order := order + [id];
        sessions := sessions - {id};
        if session.Some? {
          log := log + [SessionClosed(session.value)];
          failed := failed || session.value in failures.sessions;
        }
      }
      if inst.Some? {
        log := log + [InstanceClosed(inst.value)];
        failed := failed || failures.inst;
        inst := None;
      }
    }

    method HandleConnectRequest(hasConfig: bool, made: bool, connected: bool, failures: Failures)
      returns (response: Response, ghost order: seq<string>)
      modifies this
      ensures Enabled(old(State()), Connect(hasConfig, made, connected, order))
      ensures (State(), response) == HandleConnect(old(State()), Connect(hasConfig, made, connected, order))
    {
      order := [];
      if !hasConfig {
        return Failed, order;
      }
      var failed;
      failed, order := CloseEverything(failures);
      if !made {
        return Failed, order;
      }
      var next := |log|;
      log := log + [Created(connected)];
      if !connected {
        return Failed, order;
      }
      inst := Some(next);
      response := Done;
    }

    method HandleCloseRequest(failures: Failures) returns (response: Response, ghost order: seq<string>)
      modifies this
      ensures Enabled(old(State()), Close(failures, order))
      ensures (State(), response) == Handle(old(State()), Close(failures, order))
    {
      order := [];
      if inst.Some? {
        var failed;
        failed, order := CloseEverything(failures);
        return if failed then Failed else Done, order;
      }
      response := Done;
    }

    method HandleOpenSessionRequest(supported: bool, opens: bool, isNil: bool) returns (response: Response)
      modifies this
      ensures (State(), response) == HandleOpenSession(old(State()), OpenSession(supported, opens, isNil))
    {
      if inst.None? || !supported || !opens {
        return Failed;
      }
      var session := if isNil then None else Some(|log|);
      var id := NextID();
      log := log + [Opened(Some(id), isNil, inst.value)];
      sessions := sessions[id := session];
      response := NewSession(id);
    }

    method HandleOtherRequest(sessionID: string, temporary: bool) returns (response: Response)
      modifies this
      ensures (State(), response) == HandleRun(old(State()), Run(sessionID, temporary))
    {
      if inst.None? {
        return Failed;
      }
      var found := Session(sessionID);
      if found.Unknown? {
        return Failed;
      }
      if found.Session? {
        return OnSession(found.handle);
      }
      if temporary {
        var session := |log|;
        log := log + [Opened(None, false, inst.value)];
        log := log + [SessionClosed(session)];
        assert log == old(log) + [Opened(None, false, inst.value), SessionClosed(session)];
      }
      response := OnConnection(inst.value);
    }
  }
}
