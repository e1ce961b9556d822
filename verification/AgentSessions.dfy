/**
 The driver agent's runtime: one connection, a table of sessions with ids that are never reused, and its close
 protocol.
 */
module AgentSessions {
  import opened Text
  import opened AgentLog

  /** The runtime's fields, and the log of what it has done to the driver. */
  datatype Agent = Agent(inst: Option<nat>, sessions: map<string, Option<nat>>, nextSessionID: nat, log: Log)

  function SessionID(n: nat): string {
    "session-" + Decimal(n)
  }

  /** Closing a session by its key: the entry goes, and the session behind it, if there is one, is closed. */
  function CloseOne(a: Agent, id: string): Agent {
    if id !in a.sessions then a
    else
      var rest := a.(sessions := a.sessions - {id});
      match a.sessions[id]
      case None => rest
      case Some(s) => rest.(log := a.log + [SessionClosed(s)])
  }

  /** Closing the sessions with some ids, in that order. */
  function CloseSessions(a: Agent, order: seq<string>): Agent {
    if order == [] then a else CloseOne(CloseSessions(a, order[..|order| - 1]), order[|order| - 1])
  }

  function CloseInstance(a: Agent): Agent {
    match a.inst
    case None => a
    case Some(i) => a.(inst := None, log := a.log + [InstanceClosed(i)])
  }

  /** An order in which the session map can be walked: every key comes up. */
  ghost predicate Covers(order: seq<string>, sessions: map<string, Option<nat>>) {
    forall id :: id in sessions ==> id in order
  }

  function CloseAll(a: Agent, order: seq<string>): Agent {
    CloseInstance(CloseSessions(a, order))
  }

  /** What a failing driver does: these sessions, and perhaps the connection, report an error when they are closed. */
  datatype Failures = Failures(sessions: set<nat>, inst: bool)

  predicate CloseFails(a: Agent, failures: Failures) {
    (a.inst.Some? && failures.inst)
    || exists id :: id in a.sessions && a.sessions[id].Some? && a.sessions[id].value in failures.sessions
  }

  datatype Resolution = Unknown | NoSession | Session(handle: nat)

  /** Which session a request's session id stands for: a blank id for none at all. */
  function Resolve(a: Agent, sessionID: string): Resolution {
    var id := TrimSpace(sessionID);
    if id == "" then NoSession
    else if id in a.sessions && a.sessions[id].Some? then Session(a.sessions[id].value)
    else Unknown
  }

  /** A request together with what the driver answers and in which order the session map is walked. */
  datatype Request =
    | Connect(hasConfig: bool, made: bool, connected: bool, order: seq<string>)
    | Close(failures: Failures, order: seq<string>)
    | OpenSession(supported: bool, opens: bool, isNil: bool)
    | CloseSession(sessionID: string, failures: Failures)
    | Metadata
    | Run(sessionID: string, temporary: bool)
    | EndOfInput(order: seq<string>)

  datatype Response = Failed | Done | NewSession(id: string) | OnSession(handle: nat) | OnConnection(inst: nat)

  function HandleConnect(a: Agent, req: Request): (Agent, Response)
    requires req.Connect?
  {
    if !req.hasConfig then (a, Failed)
    else
      var closed := CloseAll(a, req.order);
      if !req.made then (closed, Failed)
      else
        var made := closed.(log := closed.log + [Created(req.connected)]);
        if req.connected then (made.(inst := Some(|closed.log|)), Done) else (made, Failed)
  }

  function HandleOpenSession(a: Agent, req: Request): (Agent, Response)
    requires req.OpenSession?
  {
    if a.inst.None? || !req.supported || !req.opens then (a, Failed)
    else
      var n := a.nextSessionID + 1;
      var id := SessionID(n);
      (Agent(a.inst, a.sessions[id := if req.isNil then None else Some(|a.log|)], n,
             a.log + [Opened(Some(id), req.isNil, a.inst.value)]),
       NewSession(id))
  }

  function HandleCloseSession(a: Agent, req: Request): (Agent, Response)
    requires req.CloseSession?
  {
    match Resolve(a, req.sessionID)
    case NoSession => (a, Failed)
    case Unknown => (CloseOne(a, TrimSpace(req.sessionID)), Failed)
    case Session(s) => (CloseOne(a, TrimSpace(req.sessionID)), if s in req.failures.sessions then Failed else Done)
  }

  /** Any other request: it runs on its session, or on the connection, perhaps with a session of its own. */
  function HandleRun(a: Agent, req: Request): (Agent, Response)
    requires req.Run?
  {
    match (a.inst, Resolve(a, req.sessionID))
    case (None, _) => (a, Failed)
    case (_, Unknown) => (a, Failed)
    case (_, Session(s)) => (a, OnSession(s))
    case (Some(i), NoSession) =>
      (if req.temporary then a.(log := a.log + [Opened(None, false, i), SessionClosed(|a.log|)]) else a,
       OnConnection(i))
  }

  function Handle(a: Agent, req: Request): (Agent, Response) {
    match req
    case Connect(_, _, _, _) => HandleConnect(a, req)
    case Close(failures, order) =>
      if a.inst.None? then (a, Done) else (CloseAll(a, order), if CloseFails(a, failures) then Failed else Done)
    case OpenSession(_, _, _) => HandleOpenSession(a, req)
    case CloseSession(_, _) => HandleCloseSession(a, req)
    case Metadata => (a, Done)
    case Run(_, _) => HandleRun(a, req)
    case EndOfInput(order) => (CloseAll(a, order), Done)
  }

  /** The walk over the session map is the only thing that is not free. */
  ghost predicate Enabled(a: Agent, req: Request) {
    match req
    case Connect(hasConfig, _, _, order) => hasConfig ==> Covers(order, a.sessions)
    case Close(_, order) => a.inst.Some? ==> Covers(order, a.sessions)
    case EndOfInput(order) => Covers(order, a.sessions)
    case _ => true
  }

  const START: Agent := Agent(None, map[], 0, [])

  function After(requests: seq<Request>): Agent {
    if requests == [] then START else Handle(After(requests[..|requests| - 1]), requests[|requests| - 1]).0
  }

  ghost predicate IsRun(requests: seq<Request>) {
    requests == []
    || (IsRun(requests[..|requests| - 1]) && Enabled(After(requests[..|requests| - 1]), requests[|requests| - 1]))
  }

  // The invariant.

  /** What the table says about an id: the session was opened under that id, on the connection that is live. */
  ghost predicate EntryIsLogged(a: Agent, id: string)
    requires id in a.sessions
  {
    match a.sessions[id]
    case None => true
    case Some(s) => s < |a.log| && a.inst.Some? && a.log[s] == Opened(Some(id), false, a.inst.value)
  }

  predicate IsIssued(id: string, n: nat) {
    exists k :: 1 <= k <= n && id == SessionID(k)
  }

  /** The open sessions are those in the table. */
  ghost predicate TableIsOpen(a: Agent, open: set<nat>) {
    (forall s :: s in open ==> s < |a.log| && a.log[s].Opened? && a.log[s].id.Some?
                               && a.log[s].id.value in a.sessions && a.sessions[a.log[s].id.value] == Some(s))
    && (forall id :: id in a.sessions && a.sessions[id].Some? ==> a.sessions[id].value in open)
  }

  ghost predicate Consistent(a: Agent) {
    Legal(a.log)
    && Replay(a.log).value.live == a.inst
    && TableIsOpen(a, Replay(a.log).value.open)
    && (forall id :: id in a.sessions ==> EntryIsLogged(a, id) && id in Replay(a.log).value.ids)
    && (a.inst.None? ==> a.sessions == map[])
    && (forall id :: id in Replay(a.log).value.ids ==> IsIssued(id, a.nextSessionID))
  }

  lemma SessionIDsDiffer(k: nat, n: nat)
    requires SessionID(k) == SessionID(n)
    ensures k == n
  {
    assert Decimal(k) == SessionID(k)[|"session-"|..] == SessionID(n)[|"session-"|..] == Decimal(n);
    DecimalInjective(k, n);
  }

  lemma CloseOneTable(a: Agent, id: string)
    requires Consistent(a) && id in a.sessions && a.sessions[id].Some?
    ensures var b := CloseOne(a, id);
            Legal(b.log) && TableIsOpen(b, Replay(b.log).value.open)
            && Replay(b.log).value.live == a.inst && Replay(b.log).value.ids == Replay(a.log).value.ids
  {
    var s := a.sessions[id].value;
    ReplayMore(a.log, SessionClosed(s));
    assert a.log[s] == Opened(Some(id), false, a.inst.value);
  }

  lemma CloseOneConsistent(a: Agent, id: string)
    requires Consistent(a)
    ensures Consistent(CloseOne(a, id)) && CloseOne(a, id).inst == a.inst
    ensures CloseOne(a, id).sessions == a.sessions - {id}
  {
    if id in a.sessions && a.sessions[id].Some? {
      CloseOneTable(a, id);
    }
  }

  lemma {:induction false} CloseSessionsConsistent(a: Agent, order: seq<string>)
    requires Consistent(a)
    ensures Consistent(CloseSessions(a, order)) && CloseSessions(a, order).inst == a.inst
    ensures forall id :: id in CloseSessions(a, order).sessions <==> id in a.sessions && id !in order
  {
    if order != [] {
      CloseSessionsConsistent(a, order[..|order| - 1]);
      CloseOneConsistent(CloseSessions(a, order[..|order| - 1]), order[|order| - 1]);
      assert order == order[..|order| - 1] + [order[|order| - 1]];
    }
  }

  /** Closing everything leaves no session and no connection, and closes sessions before the connection. */
  lemma CloseAllConsistent(a: Agent, order: seq<string>)
    requires Consistent(a) && Covers(order, a.sessions)
    ensures var closed := CloseAll(a, order);
            Consistent(closed) && closed.inst == None && closed.sessions == map[]
  {
    CloseSessionsConsistent(a, order);
    var b := CloseSessions(a, order);
    assert b.sessions == map[];
    assert Replay(b.log).value.open == {};
    if b.inst.Some? {
      ReplayMore(b.log, InstanceClosed(b.inst.value));
    }
  }

  lemma ConnectConsistent(a: Agent, req: Request)
    requires Consistent(a) && req.Connect? && Enabled(a, req)
    ensures Consistent(HandleConnect(a, req).0)
  {
    if req.hasConfig {
      CloseAllConsistent(a, req.order);
      var closed := CloseAll(a, req.order);
      ReplayMore(closed.log, Created(req.connected));
    }
  }

  lemma NewIDIsNew(a: Agent)
    requires Consistent(a)
    ensures SessionID(a.nextSessionID + 1) !in Replay(a.log).value.ids
  {
    var id := SessionID(a.nextSessionID + 1);
    if id in Replay(a.log).value.ids {
      var k :| 1 <= k <= a.nextSessionID && id == SessionID(k);
      SessionIDsDiffer(k, a.nextSessionID + 1);
    }
  }

  lemma StillIssued(id: string, n: nat)
    requires IsIssued(id, n) || id == SessionID(n + 1)
    ensures IsIssued(id, n + 1)
  {
  }

  lemma OpenSessionConsistent(a: Agent, req: Request)
    requires Consistent(a) && req.OpenSession?
    ensures Consistent(HandleOpenSession(a, req).0)
  {
    if a.inst.Some? && req.supported && req.opens {
      var n := a.nextSessionID + 1;
      var id := SessionID(n);
      NewIDIsNew(a);
      ReplayMore(a.log, Opened(Some(id), req.isNil, a.inst.value));
      forall other | other in Replay(a.log).value.ids ensures IsIssued(other, n) {
        StillIssued(other, a.nextSessionID);
      }
    }
  }

  lemma RunConsistent(a: Agent, req: Request)
    requires Consistent(a) && req.Run?
    ensures Consistent(HandleRun(a, req).0)
  {
    if a.inst.Some? && Resolve(a, req.sessionID).NoSession? && req.temporary {
      var log := a.log + [Opened(None, false, a.inst.value)];
      ReplayMore(a.log, Opened(None, false, a.inst.value));
      ReplayMore(log, SessionClosed(|a.log|));
      assert log + [SessionClosed(|a.log|)] == a.log + [Opened(None, false, a.inst.value), SessionClosed(|a.log|)];
      var (now, after) := (Replay(a.log).value, Replay(log + [SessionClosed(|a.log|)]).value);
      assert |a.log| !in now.open;
      assert after == now;
    }
  }

  lemma StepConsistent(a: Agent, req: Request)
    requires Consistent(a) && Enabled(a, req)
    ensures Consistent(Handle(a, req).0)
  {
    match req
    case Connect(_, _, _, _) => ConnectConsistent(a, req);
    case Close(_, order) => if a.inst.Some? { CloseAllConsistent(a, order); }
    case OpenSession(_, _, _) => OpenSessionConsistent(a, req);
    case CloseSession(id, _) => CloseOneConsistent(a, TrimSpace(id));
    case Metadata =>
    case Run(_, _) => RunConsistent(a, req);
    case EndOfInput(order) => CloseAllConsistent(a, order);
  }

  lemma {:induction false} AlwaysConsistent(requests: seq<Request>)
    requires IsRun(requests)
    ensures Consistent(After(requests))
  {
    if requests != [] {
      AlwaysConsistent(requests[..|requests| - 1]);
      StepConsistent(After(requests[..|requests| - 1]), requests[|requests| - 1]);
    }
  }

  // What follows for every run.

  /** Without a connection there are no sessions, and no request gets one. */
  lemma NoConnectionNoSessions(requests: seq<Request>, sessionID: string)
    requires IsRun(requests) && After(requests).inst.None?
    ensures After(requests).sessions == map[] && !Resolve(After(requests), sessionID).Session?
  {
    AlwaysConsistent(requests);
  }

  /**
   No id is given out twice in a run, across reconnects too; so an id leads to the session that was opened
   under it, on the connection that is live now, or to none.
   */
  lemma StaleIdsLeadNowhere(requests: seq<Request>, sessionID: string, p: nat)
    requires IsRun(requests)
    ensures var a := After(requests);
            match Resolve(a, sessionID)
            case Session(s) => s < |a.log| && a.inst.Some?
                               && a.log[s] == Opened(Some(TrimSpace(sessionID)), false, a.inst.value)
                               && (p < |a.log| && p != s && a.log[p].Opened? ==>
                                     a.log[p].id != Some(TrimSpace(sessionID)))
            case _ => true
  {
    AlwaysConsistent(requests);
    var a := After(requests);
    if Resolve(a, sessionID).Session? && p < |a.log| && a.log[p].Opened? && a.log[p].id.Some? {
      var s := Resolve(a, sessionID).handle;
      if p < s {
        IdsAreNotReused(a.log, p, s);
      } else if s < p {
        IdsAreNotReused(a.log, s, p);
      }
    }
  }

  /** At any time a session is open exactly when the table leads to it; otherwise it has been closed exactly once. */
  lemma EverySessionIsAccountedFor(requests: seq<Request>, session: nat)
    requires IsRun(requests) && IsSession(After(requests).log, session)
    ensures var a := After(requests);
            SessionClosings(a.log, session)
            == (if exists id :: id in a.sessions && a.sessions[id] == Some(session) then 0 else 1)
  {
    AlwaysConsistent(requests);
    SessionsClosedOnce(After(requests).log, session);
  }

  /** When a connection is closed, all sessions opened on it have been closed before. */
  lemma SessionsAreClosedBeforeTheirConnection(requests: seq<Request>, session: nat, p: nat)
    requires IsRun(requests)
    requires var log := After(requests).log;
             IsSession(log, session) && p < |log| && log[p] == InstanceClosed(log[session].inst)
    ensures exists q :: session < q < p && After(requests).log[q] == SessionClosed(session)
  {
    AlwaysConsistent(requests);
    SessionsClosedFirst(After(requests).log, session, p);
  }

  /**
   After the final close nothing is left open: every session has been closed exactly once. A connection has
   been closed exactly once if it was established; an instance whose Connect failed is never closed.
   */
  lemma NothingIsLeftOpen(requests: seq<Request>, order: seq<string>, handle: nat)
    requires IsRun(requests + [EndOfInput(order)])
    ensures var a := After(requests + [EndOfInput(order)]);
            a.inst.None? && a.sessions == map[]
            && SessionClosings(a.log, handle) == (if IsSession(a.log, handle) then 1 else 0)
            && InstanceClosings(a.log, handle) == (if IsInstance(a.log, handle) then 1 else 0)
  {
    var all := requests + [EndOfInput(order)];
    assert all[..|requests|] == requests;
    AlwaysConsistent(requests);
    CloseAllConsistent(After(requests), order);
    SessionsClosedOnce(After(all).log, handle);
    InstancesClosedOnce(After(all).log, handle);
  }

  /** A concrete run in which an instance is made and never closed: its Connect failed. */
  lemma FailedConnectIsNeverClosed()
    ensures var run := [Connect(true, true, false, []), EndOfInput([])];
            IsRun(run) && After(run).log == [Created(false)]
  {
    var run := [Connect(true, true, false, []), EndOfInput([])];
    assert run[..1] == [Connect(true, true, false, [])];
    assert run[..1][..0] == [];
    assert After(run[..1]).log == [Created(false)];
  }
}
