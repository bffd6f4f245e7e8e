/** Sessions of endpoints and the states of the devices connected to them. */
module DeviceState {
  import opened Common

  type Uuid = string

  datatype Id = Id(application: string, device: string)

  datatype LastWill = LastWill(channel: string, payload: seq<int>, contentType: Option<string>)

  datatype Data = Data(deviceUid: string, endpoint: string, lwt: Option<LastWill>)

  /** A row of the table `states`; `data` is missing if the column is null or does not decode. */
  datatype Row = Row(session: Uuid, token: string, created: int, lost: bool, data: Option<Data>)

  /** What is published downstream. */
  datatype Published =
    | Connection(id: Id, uid: Option<string>, connected: bool)
    | Testament(id: Id, uid: Option<string>, lwt: LastWill)

  /** The tables, by their primary keys, and everything that was published so far. Published events
      are out, even if the transaction is rolled back afterwards. */
  datatype State = State(sessions: map<Uuid, int>, states: map<Id, Row>, log: seq<Published>)

  datatype Lookup = Found | Missing | LookupFailed

  /** The outcome of a publish; a misconfigured application is tolerated, but nothing is sent. */
  datatype Publishing = Accepted | Misconfigured | Failed

  /** Everything outside the service during one transaction. */
  datatype World = World(lookup: string -> Lookup, publish: Published -> Publishing, commits: bool)

  datatype Error = ApplicationNotFound | NotInitialized | Internal

  datatype Answer = Created | Occupied | Done | Failure(error: Error)

  // ----- time -----

  const NANOS_PER_MILLI := 1_000_000

  /** The session timeout as the database sees it: whole milliseconds of a duration in nanoseconds. */
  function Interval(timeout: nat): nat {
    timeout - timeout % NANOS_PER_MILLI
  }

  predicate Alive(timeout: nat, lastPing: int, now: int) {
    lastPing + Interval(timeout) > now
  }

  /** The time an answer promises: the session lives until `expires`. */
  function Expires(timeout: nat, now: int): int {
    now + timeout
  }

  /** The promise holds at every moment exactly for timeouts of whole milliseconds. */
  lemma ExpiryIsExact(timeout: nat, lastPing: int)
    ensures (forall now :: now < Expires(timeout, lastPing) ==> Alive(timeout, lastPing, now))
      <==> timeout % 1_000_000 == 0
    ensures forall now :: Alive(timeout, lastPing, now) ==> now < Expires(timeout, lastPing)
  {
    assert timeout == Interval(timeout) + timeout % NANOS_PER_MILLI;
    if timeout % NANOS_PER_MILLI != 0 {
      assert !Alive(timeout, lastPing, lastPing + Interval(timeout));
    }
  }

  // ----- specification -----

  function Send(w: World, log: seq<Published>, ev: Published): (seq<Published>, bool) {
    match w.publish(ev)
    case Accepted => (log + [ev], true)
    case Misconfigured => (log, true)
    case Failed => (log, false)
  }

  function UidOf(row: Row): Option<string> {
    match row.data { case Some(d) => Some(d.deviceUid) case None => None }
  }

  function WillOf(row: Row): Option<LastWill> {
    match row.data { case Some(d) => d.lwt case None => None }
  }

  /** The events for a removed row: its last will, if it has one, and the disconnect. */
  function Disconnect(w: World, log: seq<Published>, id: Id, row: Row, skipLwt: bool): (seq<Published>, bool) {
    match w.lookup(id.application)
    case LookupFailed => (log, false)
    case Missing => (log, true)
    case Found =>
      var (log', ok) :=
        if !skipLwt && WillOf(row).Some? then Send(w, log, Testament(id, UidOf(row), WillOf(row).value)) else (log, true);
      if !ok then (log', false) else Send(w, log', Connection(id, UidOf(row), false))
  }

  function Create(w: World, s: State, session: Uuid, id: Id, token: string, data: Data, now: int): (State, Answer) {
    match w.lookup(id.application)
    case Missing => (s, Failure(ApplicationNotFound))
    case LookupFailed => (s, Failure(Internal))
    case Found =>
      if id in s.states then
        if w.commits then (s.(states := s.states[id := s.states[id].(lost := true)]), Occupied)
        else (s, Failure(Internal))
      else if session !in s.sessions then (s, Failure(Internal))  // foreign key
      else
        var (log, ok) := Send(w, s.log, Connection(id, Some(data.deviceUid), true));
        if ok && w.commits
        then (State(s.sessions, s.states[id := Row(session, token, now, false, Some(data))], log), Created)
        else (s.(log := log), Failure(Internal))
  }

  function Delete(w: World, s: State, session: Uuid, id: Id, token: string, skipLwt: bool): (State, Answer) {
    if id in s.states && s.states[id].session == session && s.states[id].token == token then
      var (log, ok) := Disconnect(w, s.log, id, s.states[id], skipLwt);
      if ok && w.commits then (State(s.sessions, s.states - {id}, log), Done) else (s.(log := log), Failure(Internal))
    else (s, if w.commits then Done else Failure(Internal))
  }

  function Get(s: State, id: Id): Option<(int, Data)> {
    if id in s.states && !s.states[id].lost && s.states[id].data.Some?
    then Some((s.states[id].created, s.states[id].data.value))
    else None
  }

  function LostIds(s: State, session: Uuid): set<Id> {
    set id | id in s.states && s.states[id].session == session && s.states[id].lost
  }

  function IdsOf(states: map<Id, Row>, session: Uuid): set<Id> {
    set id | id in states && states[id].session == session
  }

  /** The disconnects of several rows, in turn, until one fails. */
  function DisconnectAll(w: World, log: seq<Published>, states: map<Id, Row>, order: seq<Id>): (seq<Published>, bool)
    requires forall id :: id in order ==> id in states
  {
    if order == [] then (log, true)
    else
      var n := |order| - 1;
      var (log', ok) := DisconnectAll(w, log, states, order[..n]);
      if !ok then (log', false) else Disconnect(w, log', order[n], states[order[n]], false)
  }

  function PruneSession(w: World, s: State, session: Uuid, order: seq<Id>): (State, bool)
    requires forall id :: id in order ==> id in s.states
  {
    var (log, ok) := DisconnectAll(w, s.log, s.states, order);
    if ok && w.commits then (State(s.sessions - {session}, s.states - Elements(order), log), true)
    else (s.(log := log), false)
  }

  /** What pruning leaves: the rows of the sessions that are still there. */
  function Remaining(states: map<Id, Row>, removed: set<Uuid>): map<Id, Row> {
    map id | id in states && states[id].session !in removed :: states[id]
  }

  // ----- the service -----

  class Service {
    const timeout: nat
    var sessions: map<Uuid, int>
    var states: map<Id, Row>
    var log: seq<Published>

    constructor (timeout: nat)
      ensures this.timeout == timeout && Value() == State(map[], map[], [])
    {
      this.timeout := timeout;
      sessions, states, log := map[], map[], [];
    }

    function Value(): State
      reads this
    {
      State(sessions, states, log)
    }

    method Init(session: Uuid, now: int) returns (expires: int)
      requires session !in sessions
      modifies this
      ensures Value() == old(Value()).(sessions := old(sessions)[session := now])
      ensures expires == Expires(timeout, now)
    {
      sessions := sessions[session := now];
      expires := now + timeout;
    }

    method SendEvent(w: World, ev: Published) returns (ok: bool)
      modifies this`log
      ensures (log, ok) == Send(w, old(log), ev)
    {
      match w.publish(ev) {
        case Accepted => log := log + [ev]; ok := true;
        case Misconfigured => ok := true;
        case Failed => ok := false;
      }
    }

    method SendDisconnectFromDelete(w: World, id: Id, row: Row, skipLwt: bool) returns (ok: bool)
      modifies this`log
      ensures (log, ok) == Disconnect(w, old(log), id, row, skipLwt)
    {
      match w.lookup(id.application) {
        case LookupFailed => return false;
        case Missing => return true;
        case Found =>
      }
      if !skipLwt {
        match WillOf(row) {
          case Some(lwt) =>
            ok := SendEvent(w, Testament(id, UidOf(row), lwt));
            if !ok {
              return;
            }
          case None =>
        }
      }
      ok := SendEvent(w, Connection(id, UidOf(row), false));
    }

    method CreateState(w: World, session: Uuid, id: Id, token: string, data: Data, now: int) returns (r: Answer)
      modifies this
      ensures (Value(), r) == Create(w, old(Value()), session, id, token, data, now)
    {
      match w.lookup(id.application) {
        case Missing => return Failure(ApplicationNotFound);
        case LookupFailed => return Failure(Internal);
        case Found =>
      }
      var saved := states;
      var lost;
      if id in states {
        states := states[id := states[id].(lost := true)];
        lost := true;
      } else if session !in sessions {
        return Failure(Internal);
      } else {
        states := states[id := Row(session, token, now, false, Some(data))];
        lost := false;
      }
      if !lost {
        var ok := SendEvent(w, Connection(id, Some(data.deviceUid), true));
        if !ok {
          states := saved;
          return Failure(Internal);
        }
      }
      if !w.commits {
        states := saved;
        return Failure(Internal);
      }
      r := if lost then Occupied else Created;
    }

    method DeleteState(w: World, session: Uuid, id: Id, token: string, skipLwt: bool) returns (r: Answer)
      modifies this
      ensures (Value(), r) == Delete(w, old(Value()), session, id, token, skipLwt)
    {
      var saved := states;
      if id in states && states[id].session == session && states[id].token == token {
        var row := states[id];
        states := states - {id};
        var ok := SendDisconnectFromDelete(w, id, row, skipLwt);
        if !ok {
          states := saved;
          return Failure(Internal);
        }
      }
      if !w.commits {
        states := saved;
        return Failure(Internal);
      }
      r := Done;
    }

    method Ping(session: Uuid, now: int) returns (r: Result<(int, seq<Id>), Error>)
      modifies this
      ensures r.Ok? <==> session in old(sessions) && Alive(timeout, old(sessions)[session], now)
      ensures Value() == if r.Ok? then old(Value()).(sessions := old(sessions)[session := now]) else old(Value())
      ensures r.Ok? ==> r.value.0 == Expires(timeout, now) && Enumerates(r.value.1, LostIds(old(Value()), session))
      ensures r.Err? ==> r.error == NotInitialized
    {
      if session in sessions && sessions[session] + Interval(timeout) > now {
        sessions := sessions[session := now];
        var lost := ListIds(set id | id in states && states[id].session == session && states[id].lost);
        r := Ok((now + timeout, lost));
      } else {
        r := Err(NotInitialized);
      }
    }

    /** The rows of a query result, in the order the database happens to return them. */
    static method ListIds(ids: set<Id>) returns (order: seq<Id>)
      ensures Enumerates(order, ids)
    {
      order := [];
      var todo := ids;
      while todo != {}
        invariant todo <= ids && Enumerates(order, ids - todo)
      {
        var id :| id in todo;
        order := order + [id];
        todo := todo - {id};
      }
    }

    /** One transaction. If anything fails, the session and all its rows stay. */
    method PruneOne(w: World, session: Uuid) returns (ok: bool, order: seq<Id>)
      modifies this
      ensures Enumerates(order, IdsOf(old(states), session))
      ensures (Value(), ok) == PruneSession(w, old(Value()), session, order)
      ensures ok ==> sessions == old(sessions) - {session} && states == Remaining(old(states), {session})
      ensures !ok ==> sessions == old(sessions) && states == old(states)
      ensures old(log) <= log
    {
      var savedSessions, savedStates := sessions, states;
      order := ListIds(set id | id in states && states[id].session == session);
      assert forall id :: id in order ==> id in savedStates;
      DisconnectsExtend(w, log, states, order);
      states := states - Elements(order);
      ok := true;
      var i := 0;
      while i < |order|
        invariant 0 <= i <= |order| && ok
        invariant forall id :: id in order[..i] ==> id in savedStates
        invariant sessions == savedSessions && states == savedStates - Elements(order)
        invariant (log, true) == DisconnectAll(w, old(log), savedStates, order[..i])
      {
        assert order[i] in order && order[..i + 1] == order[..i] + [order[i]];
        assert order[..i + 1][..i] == order[..i];
        ok := SendDisconnectFromDelete(w, order[i], savedStates[order[i]], false);
        assert (log, ok) == DisconnectAll(w, old(log), savedStates, order[..i + 1]);
        if !ok {
          FailurePersists(w, old(log), savedStates, order, i + 1);
          states := savedStates;
          return;
        }
        i := i + 1;
      }
      assert order[..|order|] == order;
      sessions := sessions - {session};
      if !w.commits {
        sessions, states, ok := savedSessions, savedStates, false;
      }
    }

    method NextExpired(now: int) returns (next: Option<Uuid>)
      ensures next.None? ==> forall id :: id in sessions ==> Alive(timeout, sessions[id], now)
      ensures next.Some? ==> next.value in sessions && !Alive(timeout, sessions[next.value], now)
      ensures next.Some? ==> forall id :: id in sessions ==> sessions[next.value] <= sessions[id]
    {
      next := None;
      var todo := sessions.Keys;
      while todo != {}
        invariant todo <= sessions.Keys
        invariant next.None? ==> forall id :: id in sessions && id !in todo ==> Alive(timeout, sessions[id], now)
        invariant next.Some? ==> next.value in sessions && !Alive(timeout, sessions[next.value], now)
        invariant next.Some? ==> forall id :: id in sessions && id !in todo ==> sessions[next.value] <= sessions[id]
      {
        var id :| id in todo;
        todo := todo - {id};
        if sessions[id] + Interval(timeout) <= now && (next.None? || sessions[id] < sessions[next.value]) {
          next := Some(id);
        }
      }
    }

    /** Pruning ends. It removes expired sessions with all their rows, and only those; if nothing fails,
        it leaves no session that was expired at its last look. */
    method Prune(world: nat -> World, clock: nat -> int) returns (r: Result<nat, Error>, ghost looks: nat)
      requires forall i, j :: 0 <= i <= j ==> clock(i) <= clock(j)
      modifies this
      ensures Pruned(timeout, old(Value()), Value(), clock(looks))
      ensures r.Ok? ==> r.value == |old(sessions)| - |sessions|
      ensures r.Ok? ==> forall id :: id in sessions ==> Alive(timeout, sessions[id], clock(looks))
      ensures r.Err? ==> exists id :: id in sessions && !Alive(timeout, sessions[id], clock(looks))
    {
      var n: nat := 0;
      assert states == Remaining(states, {});
      while true
        invariant Pruned(timeout, old(Value()), Value(), clock(n))
        invariant n == |old(sessions)| - |sessions|
        decreases |sessions|
      {
        var next := NextExpired(clock(n));
        if next.None? {
          return Ok(n), n;
        }
        ghost var before := Value();
        var ok, order := PruneOne(world(n), next.value);
        if !ok {
          assert Value() == before.(log := log);
          assert next.value in sessions;
          return Err(Internal), n;
        }
        assert clock(n) <= clock(n + 1);
        PruneContinues(timeout, old(Value()), before, Value(), next.value, clock(n), clock(n + 1));
        n := n + 1;
      }
    }
  }

  /** From one state to a later one, only expired sessions went, each with all its rows. */
  ghost predicate Pruned(timeout: nat, before: State, after: State, now: int) {
    && after.sessions.Keys <= before.sessions.Keys
    && (forall id :: id in after.sessions ==> after.sessions[id] == before.sessions[id])
    && after.states == Remaining(before.states, before.sessions.Keys - after.sessions.Keys)
    && before.log <= after.log
    && (forall id :: id in before.sessions && id !in after.sessions ==> !Alive(timeout, before.sessions[id], now))
  }

  lemma PruneContinues(timeout: nat, s0: State, s: State, s': State, session: Uuid, now: int, later: int)
    requires Pruned(timeout, s0, s, now) && now <= later
    requires session in s.sessions && !Alive(timeout, s.sessions[session], now)
    requires s'.sessions == s.sessions - {session} && s'.states == Remaining(s.states, {session}) && s.log <= s'.log
    ensures Pruned(timeout, s0, s', later) && |s'.sessions| == |s.sessions| - 1
  {
    var removed := s0.sessions.Keys - s.sessions.Keys;
    assert s'.sessions.Keys == s.sessions.Keys - {session};
    assert s0.sessions.Keys - s'.sessions.Keys == removed + {session};
    RemainingTwice(s0.states, removed, session);
    assert |s'.sessions.Keys| == |s.sessions.Keys| - 1;
    forall id | id in s0.sessions && id !in s'.sessions ensures !Alive(timeout, s0.sessions[id], later) {
      assert id == session || id !in s.sessions;
    }
  }

  lemma RemainingTwice(states: map<Id, Row>, removed: set<Uuid>, session: Uuid)
    ensures Remaining(Remaining(states, removed), {session}) == Remaining(states, removed + {session})
  {
  }

  lemma {:induction false} FailurePersists(w: World, log: seq<Published>, states: map<Id, Row>, order: seq<Id>, i: nat)
    requires (forall id :: id in order ==> id in states) && i <= |order|
    requires !DisconnectAll(w, log, states, order[..i]).1
    ensures DisconnectAll(w, log, states, order) == DisconnectAll(w, log, states, order[..i])
  {
    if i == |order| {
      assert order[..i] == order;
    } else {
      var n := |order| - 1;
      assert order[..n][..i] == order[..i];
      FailurePersists(w, log, states, order[..n], i);
    }
  }

  lemma {:induction false} DisconnectsExtend(w: World, log: seq<Published>, states: map<Id, Row>, order: seq<Id>)
    requires forall id :: id in order ==> id in states
    ensures log <= DisconnectAll(w, log, states, order).0
  {
    if order != [] {
      DisconnectsExtend(w, log, states, order[..|order| - 1]);
    }
  }
}
