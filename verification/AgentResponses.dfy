/**
 What the driver agent answers, over whole runs of requests: where a request runs, and what opening and closing say,
 in terms of what has happened before.
 */
module AgentResponses {
  import opened Text
  import opened AgentLog
  import opened AgentSessions

  /** The connection was established, and has not been closed. */
  predicate IsLive(log: Log, inst: nat) {
    IsInstance(log, inst) && InstanceClosings(log, inst) == 0
  }

  /** The session was opened on the live connection, under the id given, and has not been closed. */
  predicate IsUsable(log: Log, session: nat, sessionID: string) {
    session < |log| && log[session].Opened? && IsLive(log, log[session].inst)
    && log[session] == Opened(Some(TrimSpace(sessionID)), false, log[session].inst)
    && SessionClosings(log, session) == 0
  }

  lemma LiveIsKnown(requests: seq<Request>, inst: nat)
    requires IsRun(requests)
    ensures After(requests).inst == Some(inst) <==> IsLive(After(requests).log, inst)
  {
    AlwaysConsistent(requests);
    InstancesClosedOnce(After(requests).log, inst);
  }

  lemma UsableIsFound(requests: seq<Request>, session: nat, sessionID: string)
    requires IsRun(requests) && IsUsable(After(requests).log, session, sessionID)
    ensures TrimSpace(sessionID) in After(requests).sessions
    ensures After(requests).sessions[TrimSpace(sessionID)] == Some(session)
  {
    var a := After(requests);
    AlwaysConsistent(requests);
    SessionsClosedOnce(a.log, session);
    assert session in Replay(a.log).value.open;
  }

  lemma FoundIsUsable(requests: seq<Request>, session: nat, sessionID: string)
    requires IsRun(requests) && TrimSpace(sessionID) in After(requests).sessions
    requires After(requests).sessions[TrimSpace(sessionID)] == Some(session)
    ensures IsUsable(After(requests).log, session, sessionID)
  {
    var a := After(requests);
    AlwaysConsistent(requests);
    assert EntryIsLogged(a, TrimSpace(sessionID));
    SessionsClosedOnce(a.log, session);
    LiveIsKnown(requests, a.inst.value);
  }

  /** No id is blank. */
  lemma IdsAreNotBlank(requests: seq<Request>, session: nat, sessionID: string)
    requires IsRun(requests) && IsUsable(After(requests).log, session, sessionID)
    ensures TrimSpace(sessionID) != ""
  {
    var a := After(requests);
    AlwaysConsistent(requests);
    UsableIsFound(requests, session, sessionID);
    var k :| 1 <= k <= a.nextSessionID && TrimSpace(sessionID) == SessionID(k);
  }

  /** The id leads to the session exactly when that is usable under it. */
  lemma ResolvesExactly(requests: seq<Request>, session: nat, sessionID: string)
    requires IsRun(requests)
    ensures Resolve(After(requests), sessionID) == Session(session)
       <==> IsUsable(After(requests).log, session, sessionID)
  {
    if IsUsable(After(requests).log, session, sessionID) {
      UsableIsFound(requests, session, sessionID);
      IdsAreNotBlank(requests, session, sessionID);
    } else if Resolve(After(requests), sessionID) == Session(session) {
      FoundIsUsable(requests, session, sessionID);
    }
  }

  /** What a request is answered after others, and what has happened then. */
  function Answer(requests: seq<Request>, req: Request): Response {
    Handle(After(requests), req).1
  }

  function LogAfter(requests: seq<Request>, req: Request): Log {
    Handle(After(requests), req).0.log
  }

  /**
   A request under an id runs on the session that was opened under it on the live connection and has not been closed;
   with a blank id it runs on the live connection; in all other cases it fails.
   */
  lemma RunsWhereItShould(requests: seq<Request>, sessionID: string, temporary: bool, handle: nat)
    requires IsRun(requests)
    ensures var (log, answer) := (After(requests).log, Answer(requests, Run(sessionID, temporary)));
            && (answer == OnSession(handle) <==> IsUsable(log, handle, sessionID))
            && (answer == OnConnection(handle) <==> TrimSpace(sessionID) == "" && IsLive(log, handle))
            && (answer.OnSession? || answer.OnConnection? || answer.Failed?)
  {
    ResolvesExactly(requests, handle, sessionID);
    LiveIsKnown(requests, handle);
    var a := After(requests);
    AlwaysConsistent(requests);
    if a.inst.Some? {
      LiveIsKnown(requests, a.inst.value);
    }
  }

  /** Running leaves connection and sessions alone; a streamed query opens and closes a session of its own. */
  lemma RunLeavesAlone(requests: seq<Request>, sessionID: string, temporary: bool)
    requires IsRun(requests)
    ensures var (a, b) := (After(requests), Handle(After(requests), Run(sessionID, temporary)).0);
            (b.inst, b.sessions, b.nextSessionID) == (a.inst, a.sessions, a.nextSessionID)
            && match Answer(requests, Run(sessionID, temporary))
               case OnConnection(i) =>
                 b.log == if temporary then a.log + [Opened(None, false, i), SessionClosed(|a.log|)] else a.log
               case _ => b.log == a.log
  {
  }

  lemma AfterMore(requests: seq<Request>, req: Request)
    ensures After(requests + [req]) == Handle(After(requests), req).0
    ensures IsRun(requests + [req]) <==> IsRun(requests) && Enabled(After(requests), req)
  {
    assert (requests + [req])[..|requests|] == requests;
  }

  /** How many sessions have been opened for the client. */
  function Openings(log: Log): nat {
    if log == [] then 0
    else
      var last := log[|log| - 1];
      Openings(log[..|log| - 1]) + if last.Opened? && last.id.Some? then 1 else 0
  }

  lemma OneMoreOpening(log: Log, event: Event)
    ensures Openings(log + [event]) == Openings(log) + if event.Opened? && event.id.Some? then 1 else 0
  {
    assert (log + [event])[..|log|] == log;
  }

  lemma {:induction false} ClosingOpensNone(a: Agent, order: seq<string>)
    ensures Openings(CloseSessions(a, order).log) == Openings(a.log)
    ensures CloseSessions(a, order).nextSessionID == a.nextSessionID
  {
    if order != [] {
      var b := CloseSessions(a, order[..|order| - 1]);
      ClosingOpensNone(a, order[..|order| - 1]);
      OneClosingOpensNone(b, order[|order| - 1]);
    }
  }

  lemma OneClosingOpensNone(a: Agent, id: string)
    ensures Openings(CloseOne(a, id).log) == Openings(a.log) && CloseOne(a, id).nextSessionID == a.nextSessionID
  {
    if id in a.sessions && a.sessions[id].Some? {
      OneMoreOpening(a.log, SessionClosed(a.sessions[id].value));
    }
  }

  lemma ClosingAllOpensNone(a: Agent, order: seq<string>)
    ensures Openings(CloseAll(a, order).log) == Openings(a.log)
    ensures CloseAll(a, order).nextSessionID == a.nextSessionID
  {
    ClosingOpensNone(a, order);
    var b := CloseSessions(a, order);
    if b.inst.Some? {
      OneMoreOpening(b.log, InstanceClosed(b.inst.value));
    }
  }

  lemma ConnectCounts(a: Agent, req: Request)
    requires req.Connect? && a.nextSessionID == Openings(a.log)
    ensures var b := HandleConnect(a, req).0; b.nextSessionID == Openings(b.log)
  {
    ClosingAllOpensNone(a, req.order);
    OneMoreOpening(CloseAll(a, req.order).log, Created(req.connected));
  }

  lemma OpenCounts(a: Agent, req: Request)
    requires req.OpenSession? && a.nextSessionID == Openings(a.log)
    ensures var b := HandleOpenSession(a, req).0; b.nextSessionID == Openings(b.log)
  {
    if a.inst.Some? {
      OneMoreOpening(a.log, Opened(Some(SessionID(a.nextSessionID + 1)), req.isNil, a.inst.value));
    }
  }

  lemma TemporaryCounts(log: Log, inst: nat, session: nat)
    ensures Openings(log + [Opened(None, false, inst), SessionClosed(session)]) == Openings(log)
  {
    var more := log + [Opened(None, false, inst)];
    OneMoreOpening(log, Opened(None, false, inst));
    OneMoreOpening(more, SessionClosed(session));
    assert more + [SessionClosed(session)] == log + [Opened(None, false, inst), SessionClosed(session)];
  }

  lemma StepCounts(a: Agent, req: Request)
    requires a.nextSessionID == Openings(a.log)
    ensures var b := Handle(a, req).0; b.nextSessionID == Openings(b.log)
  {
    match req
    case Connect(_, _, _, _) => ConnectCounts(a, req);
    case Close(_, order) => ClosingAllOpensNone(a, order);
    case OpenSession(_, _, _) => OpenCounts(a, req);
    case CloseSession(sessionID, _) => OneClosingOpensNone(a, TrimSpace(sessionID));
    case Metadata =>
    case Run(_, _) =>
      if a.inst.Some? {
        TemporaryCounts(a.log, a.inst.value, |a.log|);
      }
    case EndOfInput(order) => ClosingAllOpensNone(a, order);
  }

  lemma {:induction false} CountsOpenings(requests: seq<Request>)
    ensures After(requests).nextSessionID == Openings(After(requests).log)
  {
    if requests != [] {
      CountsOpenings(requests[..|requests| - 1]);
      StepCounts(After(requests[..|requests| - 1]), requests[|requests| - 1]);
    }
  }

  /** The id that the next session gets. */
  function NextID(log: Log): string {
    "session-" + Decimal(Openings(log) + 1)
  }

  lemma NextIDIs(requests: seq<Request>)
    ensures SessionID(After(requests).nextSessionID + 1) == NextID(After(requests).log)
  {
    CountsOpenings(requests);
  }

  lemma KnownIDsAreOld(log: Log, id: string)
    requires Legal(log) && id !in Replay(log).value.ids
    ensures forall p :: 0 <= p < |log| && log[p].Opened? ==> log[p].id != Some(id)
  {
    forall p | 0 <= p < |log| && log[p].Opened? && log[p].id.Some? ensures log[p].id.value in Replay(log).value.ids {
      OpenedIdsAreKnown(log, p);
    }
  }

  lemma IssuedIsNew(requests: seq<Request>, id: string)
    requires IsRun(requests) && id == SessionID(After(requests).nextSessionID + 1)
    ensures var log := After(requests).log; forall p :: 0 <= p < |log| && log[p].Opened? ==> log[p].id != Some(id)
  {
    AlwaysConsistent(requests);
    NewIDIsNew(After(requests));
    KnownIDsAreOld(After(requests).log, id);
  }

  lemma NextIDIsNew(requests: seq<Request>)
    requires IsRun(requests)
    ensures var log := After(requests).log;
            forall p :: 0 <= p < |log| && log[p].Opened? ==> log[p].id != Some(NextID(log))
  {
    NextIDIs(requests);
    IssuedIsNew(requests, NextID(After(requests).log));
  }

  lemma SomeLiveExactly(requests: seq<Request>)
    requires IsRun(requests)
    ensures (exists i: nat :: IsLive(After(requests).log, i)) <==> After(requests).inst.Some?
    ensures After(requests).inst.Some? ==> IsLive(After(requests).log, After(requests).inst.value)
  {
    var a := After(requests);
    if a.inst.Some? {
      LiveIsKnown(requests, a.inst.value);
    }
    if i: nat :| IsLive(a.log, i) {
      LiveIsKnown(requests, i);
    }
  }

  /**
   Opening a session succeeds exactly on a live connection whose driver supports it and does it. The id is new: it is
   numbered after all sessions opened before. The session is opened on the live connection under it; a failure changes
   nothing.
   */
  lemma OpensOnLiveConnection(requests: seq<Request>, supported: bool, opens: bool, isNil: bool)
    requires IsRun(requests)
    ensures var (log, req) := (After(requests).log, OpenSession(supported, opens, isNil));
            var (answer, id) := (Answer(requests, req), "session-" + Decimal(Openings(log) + 1));
            && (answer == NewSession(id) <==> supported && opens && exists i: nat :: IsLive(log, i))
            && (answer != NewSession(id) ==> answer == Failed && Handle(After(requests), req).0 == After(requests))
            && (answer == NewSession(id) ==>
                  exists i: nat :: IsLive(log, i) && LogAfter(requests, req) == log + [Opened(Some(id), isNil, i)])
            && forall p :: 0 <= p < |log| && log[p].Opened? ==> log[p].id != Some(id)
  {
    NextIDIs(requests);
    NextIDIsNew(requests);
    SomeLiveExactly(requests);
  }

  lemma {:induction false} OpenedIdsAreKnown(log: Log, p: nat)
    requires Legal(log) && p < |log| && log[p].Opened? && log[p].id.Some?
    ensures log[p].id.value in Replay(log).value.ids
  {
    if p < |log| - 1 {
      OpenedIdsAreKnown(log[..|log| - 1], p);
    }
  }

  lemma TrimmedID(n: nat)
    ensures TrimSpace(SessionID(n)) == SessionID(n)
  {
    var id := SessionID(n);
    assert id[0] == 's' && IsDigit(id[|id| - 1]) by {
      assert id[|id| - 1] == Decimal(n)[|Decimal(n)| - 1];
    }
    TrimSpec(id, GoSpace);
  }

  lemma OpenedIsEntered(a: Agent, id: string, temporary: bool)
    requires a.inst.Some? && id == SessionID(a.nextSessionID + 1) && TrimSpace(id) == id
    ensures Handle(Handle(a, OpenSession(true, true, false)).0, Run(id, temporary)).1 == OnSession(|a.log|)
  {
    assert id != "";
  }

  lemma NextAnswer(requests: seq<Request>, req: Request, next: Request)
    ensures Answer(requests + [req], next) == Handle(Handle(After(requests), req).0, next).1
  {
    AfterMore(requests, req);
  }

  /** A session just opened, if the driver gave one, is the one on which requests under its id run. */
  lemma OpenedSessionAnswers(requests: seq<Request>, id: string, temporary: bool)
    requires IsRun(requests) && Answer(requests, OpenSession(true, true, false)) == NewSession(id)
    ensures Answer(requests + [OpenSession(true, true, false)], Run(id, temporary)) == OnSession(|After(requests).log|)
  {
    var a := After(requests);
    TrimmedID(a.nextSessionID + 1);
    OpenedIsEntered(a, id, temporary);
    NextAnswer(requests, OpenSession(true, true, false), Run(id, temporary));
  }

  /**
   Closing by id closes the session that is usable under the id, and reports what the driver reports; without one it
   fails and closes nothing.
   */
  lemma ClosesUsableSession(requests: seq<Request>, sessionID: string, failures: Failures, session: nat)
    requires IsRun(requests)
    ensures var (log, req) := (After(requests).log, CloseSession(sessionID, failures));
            var (answer, later) := (Answer(requests, req), LogAfter(requests, req));
            && (later == log + [SessionClosed(session)] <==> IsUsable(log, session, sessionID))
            && (IsUsable(log, session, sessionID) ==>
                  answer == if session in failures.sessions then Failed else Done)
            && (answer == Done || answer == Failed)
            && (later == log || exists s: nat :: later == log + [SessionClosed(s)] && IsUsable(log, s, sessionID))
            && (later == log ==> answer == Failed)
  {
    var a := After(requests);
    ResolvesExactly(requests, session, sessionID);
    var later := LogAfter(requests, CloseSession(sessionID, failures));
    AlwaysConsistent(requests);
    match Resolve(a, sessionID)
    case Session(s) =>
      ResolvesExactly(requests, s, sessionID);
      assert later == a.log + [SessionClosed(s)] && later[|a.log|] == SessionClosed(s);
      assert (a.log + [SessionClosed(session)])[|a.log|] == SessionClosed(session);
    case _ =>
      assert later == a.log;
  }

  /** After that the id is of no use. */
  lemma ClosedIdFails(requests: seq<Request>, sessionID: string, failures: Failures, temporary: bool)
    requires IsRun(requests) && TrimSpace(sessionID) != ""
    ensures Answer(requests + [CloseSession(sessionID, failures)], Run(sessionID, temporary)) == Failed
  {
    AfterMore(requests, CloseSession(sessionID, failures));
  }

  /**
   A connect request succeeds exactly when it has a configuration and the driver makes and connects an instance, which
   then is the live one; else no connection is live, unless there was no configuration, and nothing has happened.
   */
  lemma ConnectsLast(requests: seq<Request>, req: Request, inst: nat)
    requires IsRun(requests) && req.Connect? && Enabled(After(requests), req)
    ensures var (log, later) := (After(requests).log, LogAfter(requests, req));
            var done := req.hasConfig && req.made && req.connected;
            && Answer(requests, req) == (if done then Done else Failed)
            && (!req.hasConfig ==> Handle(After(requests), req).0 == After(requests))
            && (req.hasConfig ==> (IsLive(later, inst) <==> done && inst == |later| - 1))
  {
    AfterMore(requests, req);
    LiveIsKnown(requests + [req], inst);
    AlwaysConsistent(requests);
    if req.hasConfig {
      CloseAllConsistent(After(requests), req.order);
    }
  }

  /** A session is open when it was opened for the client and has not been closed. */
  predicate IsOpenSession(log: Log, session: nat) {
    IsSession(log, session) && log[session].id.Some? && SessionClosings(log, session) == 0
  }

  lemma InTableExactly(requests: seq<Request>, session: nat)
    requires IsRun(requests)
    ensures IsOpenSession(After(requests).log, session)
       <==> exists id :: id in After(requests).sessions && After(requests).sessions[id] == Some(session)
  {
    var a := After(requests);
    AlwaysConsistent(requests);
    SessionsClosedOnce(a.log, session);
    if id :| id in a.sessions && a.sessions[id] == Some(session) {
      assert EntryIsLogged(a, id);
    }
  }

  lemma CloseFailsExactly(requests: seq<Request>, failures: Failures)
    requires IsRun(requests)
    ensures var log := After(requests).log;
            CloseFails(After(requests), failures)
            <==> (failures.inst && exists i: nat :: IsLive(log, i))
                 || exists s: nat :: s in failures.sessions && IsOpenSession(log, s)
  {
    var a := After(requests);
    SomeLiveExactly(requests);
    forall s: nat ensures IsOpenSession(a.log, s) <==> exists id :: id in a.sessions && a.sessions[id] == Some(s) {
      InTableExactly(requests, s);
    }
  }

  /** A close request leaves nothing live, and fails exactly when an open session or the connection fails to close. */
  lemma ClosesEverything(requests: seq<Request>, failures: Failures, order: seq<string>, inst: nat)
    requires IsRun(requests) && Enabled(After(requests), Close(failures, order))
    ensures var (log, req) := (After(requests).log, Close(failures, order));
            && !IsLive(LogAfter(requests, req), inst)
            && (Answer(requests, req) == Failed
                <==> (failures.inst && exists i: nat :: IsLive(log, i))
                     || exists s: nat :: s in failures.sessions && IsOpenSession(log, s))
            && (Answer(requests, req) == Failed || Answer(requests, req) == Done)
  {
    AfterMore(requests, Close(failures, order));
    AlwaysConsistent(requests);
    LiveIsKnown(requests + [Close(failures, order)], inst);
    CloseFailsExactly(requests, failures);
    if After(requests).inst.Some? {
      CloseAllConsistent(After(requests), order);
    }
  }
}
