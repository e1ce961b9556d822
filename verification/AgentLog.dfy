/** What a driver agent does to its driver: which event sequences use connections and sessions as they must be used. */
module AgentLog {
  import opened Text

  /**
   A connection or session is named by the position of the event that made it. A session opened for the client
   has an id; one that serves a single streamed query has none. A driver may hand out a session that is nil.
   */
  datatype Event =
    | Created(connected: bool)
    | Opened(id: Option<string>, isNil: bool, inst: nat)
    | SessionClosed(session: nat)
    | InstanceClosed(inst: nat)

  type Log = seq<Event>

  /** What is in use after a legal sequence of events: the live connection, the open sessions, and the ids given out. */
  datatype InUse = InUse(live: Option<nat>, open: set<nat>, ids: set<string>)

  /** One more event, if it is legal: sessions are opened on the live connection under new ids, and closed before it. */
  function Next(now: InUse, at: nat, event: Event): Option<InUse> {
    match event
    case Created(connected) =>
      if now.live.Some? then None else Some(if connected then now.(live := Some(at)) else now)
    case Opened(id, isNil, inst) =>
      if now.live != Some(inst) || (id.Some? && id.value in now.ids) then None
      else
        Some(InUse(now.live, if isNil then now.open else now.open + {at},
                   if id.Some? then now.ids + {id.value} else now.ids))
    case SessionClosed(session) =>
      if session !in now.open then None else Some(now.(open := now.open - {session}))
    case InstanceClosed(inst) =>
      if now.live != Some(inst) || now.open != {} then None else Some(now.(live := None))
  }

  /** What is in use after the log, or None when some event of it was not legal. */
  function Replay(log: Log): Option<InUse> {
    if log == [] then Some(InUse(None, {}, {}))
    else
      match Replay(log[..|log| - 1])
      case None => None
      case Some(now) => Next(now, |log| - 1, log[|log| - 1])
  }

  ghost predicate Legal(log: Log) {
    Replay(log).Some?
  }

  lemma ReplayMore(log: Log, event: Event)
    requires Legal(log)
    ensures Replay(log + [event]) == Next(Replay(log).value, |log|, event)
  {
    assert (log + [event])[..|log|] == log;
  }

  lemma {:induction false} LegalPrefix(log: Log, n: nat)
    requires Legal(log) && n <= |log|
    ensures Legal(log[..n])
  {
    if n < |log| {
      LegalPrefix(log[..|log| - 1], n);
      assert log[..|log| - 1][..n] == log[..n];
    } else {
      assert log[..n] == log;
    }
  }

  /** The state in which an event of a legal log happened allowed it. */
  lemma LegalAt(log: Log, p: nat)
    requires Legal(log) && p < |log|
    ensures Legal(log[..p]) && Next(Replay(log[..p]).value, p, log[p]).Some?
  {
    LegalPrefix(log, p);
    LegalPrefix(log, p + 1);
    assert log[..p + 1] == log[..p] + [log[p]];
    ReplayMore(log[..p], log[p]);
  }

  function SessionClosings(log: Log, session: nat): nat {
    if log == [] then 0
    else SessionClosings(log[..|log| - 1], session) + if log[|log| - 1] == SessionClosed(session) then 1 else 0
  }

  function InstanceClosings(log: Log, inst: nat): nat {
    if log == [] then 0
    else InstanceClosings(log[..|log| - 1], inst) + if log[|log| - 1] == InstanceClosed(inst) then 1 else 0
  }

  predicate IsSession(log: Log, session: nat) {
    session < |log| && log[session].Opened? && !log[session].isNil
  }

  predicate IsInstance(log: Log, inst: nat) {
    inst < |log| && log[inst] == Created(true)
  }

  /** Every session that is open belongs to the live connection. */
  lemma {:induction false} OpenOnLive(log: Log)
    requires Legal(log)
    ensures var now := Replay(log).value;
            forall s :: s in now.open ==> IsSession(log, s) && now.live == Some(log[s].inst)
  {
    if log != [] {
      OpenOnLive(log[..|log| - 1]);
    }
  }

  lemma {:induction false} LiveIsInstance(log: Log)
    requires Legal(log)
    ensures var now := Replay(log).value; now.live.Some? ==> IsInstance(log, now.live.value)
  {
    if log != [] {
      LiveIsInstance(log[..|log| - 1]);
    }
  }

  /** A session is open, or it has been closed exactly once. */
  lemma {:induction false} SessionsClosedOnce(log: Log, session: nat)
    requires Legal(log)
    ensures SessionClosings(log, session) + (if session in Replay(log).value.open then 1 else 0)
         == if IsSession(log, session) then 1 else 0
  {
    if log != [] {
      SessionsClosedOnce(log[..|log| - 1], session);
      OpenOnLive(log[..|log| - 1]);
    }
  }

  /**
   A connection that was made is live, or it has been closed exactly once; one that failed to connect is never
   closed.
   */
  lemma {:induction false} InstancesClosedOnce(log: Log, inst: nat)
    requires Legal(log)
    ensures InstanceClosings(log, inst) + (if Replay(log).value.live == Some(inst) then 1 else 0)
         == if IsInstance(log, inst) then 1 else 0
  {
    if log != [] {
      InstancesClosedOnce(log[..|log| - 1], inst);
      LiveIsInstance(log[..|log| - 1]);
    }
  }

  lemma {:induction false} ClosingsAreEvents(log: Log, session: nat)
    requires SessionClosings(log, session) > 0
    ensures exists q :: 0 <= q < |log| && log[q] == SessionClosed(session)
  {
    if log[|log| - 1] != SessionClosed(session) {
      ClosingsAreEvents(log[..|log| - 1], session);
      var q :| 0 <= q < |log| - 1 && log[..|log| - 1][q] == SessionClosed(session);
      assert log[q] == SessionClosed(session);
    }
  }

  lemma {:induction false} EventsAreClosings(log: Log, inst: nat, p: nat)
    requires p < |log| && log[p] == InstanceClosed(inst)
    ensures InstanceClosings(log, inst) > 0
  {
    if p < |log| - 1 {
      EventsAreClosings(log[..|log| - 1], inst, p);
    }
  }

  /** When a connection is closed, every session opened on it, then or later, has already been closed. */
  lemma SessionsClosedFirst(log: Log, session: nat, p: nat)
    requires Legal(log) && IsSession(log, session) && p < |log| && log[p] == InstanceClosed(log[session].inst)
    ensures exists q :: session < q < p && log[q] == SessionClosed(session)
  {
    NothingOpenedAfterClose(log, session, p);
    LegalAt(log, p);
    SessionsClosedOnce(log[..p], session);
    ClosingsAreEvents(log[..p], session);
    var q :| 0 <= q < p && log[..p][q] == SessionClosed(session);
    LegalAt(log, q);
    OpenOnLive(log[..q]);
    assert IsSession(log[..q], session);
  }

  lemma NothingOpenedAfterClose(log: Log, session: nat, p: nat)
    requires Legal(log) && IsSession(log, session) && p < |log| && log[p] == InstanceClosed(log[session].inst)
    ensures session < p
  {
    if p < session {
      LegalAt(log, session);
      InstancesClosedOnce(log[..session], log[session].inst);
      EventsAreClosings(log[..session], log[session].inst, p);
    }
  }

  lemma {:induction false} IdsInLog(log: Log, p: nat)
    requires Legal(log) && p < |log| && log[p].Opened? && log[p].id.Some?
    ensures log[p].id.value in Replay(log).value.ids
  {
    if p < |log| - 1 {
      IdsInLog(log[..|log| - 1], p);
    }
  }

  /** No id is given out twice. */
  lemma IdsAreNotReused(log: Log, p: nat, q: nat)
    requires Legal(log) && p < q < |log| && log[p].Opened? && log[q].Opened? && log[p].id.Some?
    ensures log[p].id != log[q].id
  {
    LegalAt(log, q);
    IdsInLog(log[..q], p);
  }
}
