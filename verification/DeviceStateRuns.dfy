/** Runs of the device state service: the lease on a device, the connection events, and sessions over time. */
module DeviceStateRuns {
  import opened Common
  import opened DeviceState

  datatype Step =
    | InitStep(session: Uuid, now: int)
    | CreateStep(world: World, session: Uuid, id: Id, token: string, data: Data, now: int)
    | DeleteStep(world: World, session: Uuid, id: Id, token: string, skipLwt: bool, now: int)
    | PingStep(session: Uuid, now: int)
    | PruneStep(world: World, session: Uuid, order: seq<Id>, now: int)

  /** A session may be pruned when it is expired; its rows are removed in some order. */
  ghost predicate Prunable(timeout: nat, s: State, session: Uuid, order: seq<Id>, now: int) {
    && session in s.sessions && !Alive(timeout, s.sessions[session], now)
    && Enumerates(order, IdsOf(s.states, session))
  }

  /** A step that is not possible changes nothing. */
  ghost function Apply(timeout: nat, s: State, step: Step): State {
    match step
    case InitStep(session, now) => if session in s.sessions then s else s.(sessions := s.sessions[session := now])
    case CreateStep(w, session, id, token, data, now) => Create(w, s, session, id, token, data, now).0
    case DeleteStep(w, session, id, token, skipLwt, now) => Delete(w, s, session, id, token, skipLwt).0
    case PingStep(session, now) =>
      if session in s.sessions && Alive(timeout, s.sessions[session], now)
      then s.(sessions := s.sessions[session := now])
      else s
    case PruneStep(w, session, order, now) =>
      if Prunable(timeout, s, session, order, now) then PruneSession(w, s, session, order).0 else s
  }

  const EMPTY := State(map[], map[], [])

  ghost function Run(timeout: nat, s: State, steps: seq<Step>): State {
    if steps == [] then s else Apply(timeout, Run(timeout, s, steps[..|steps| - 1]), steps[|steps| - 1])
  }

  // ----- the lease -----

  /** The steps that end the lease of a row: its own delete, and the pruning of its session. */
  predicate Releases(step: Step, id: Id, row: Row) {
    || (step.DeleteStep? && step.id == id && step.session == row.session && step.token == row.token)
    || (step.PruneStep? && step.session == row.session)
  }

  /** Another create that gets through. */
  predicate Contends(step: Step, id: Id) {
    step.CreateStep? && step.id == id && step.world.commits && step.world.lookup(id.application) == Found
  }

  /** The same lease, perhaps marked as lost since. */
  predicate SameLease(before: Row, after: Row) {
    after == before.(lost := after.lost) && (before.lost ==> after.lost)
  }

  /** Only its own delete, and the pruning of its session, can end a lease: no delete with another session or token does. */
  lemma OnlyReleaseEndsLease(timeout: nat, s: State, step: Step, id: Id)
    requires id in s.states && id !in Apply(timeout, s, step).states
    ensures Releases(step, id, s.states[id])
  {
  }

  /** A step that does not end the lease, even if it tried to, leaves the row but for its mark. No create gets the
      device, and one that gets through is told so and marks the row. */
  lemma LeaseIsExclusive(timeout: nat, s: State, step: Step, id: Id)
    requires id in s.states && id in Apply(timeout, s, step).states
    ensures SameLease(s.states[id], Apply(timeout, s, step).states[id])
    ensures step.CreateStep? && step.id == id ==>
      Create(step.world, s, step.session, id, step.token, step.data, step.now).1 != Created
    ensures Contends(step, id) ==>
      Create(step.world, s, step.session, id, step.token, step.data, step.now).1 == Occupied
    ensures Apply(timeout, s, step).states[id].lost <==> s.states[id].lost || Contends(step, id)
  {
  }

  /** The row is there throughout the run. Attempts to release it that are rolled back do not matter. */
  ghost predicate Held(timeout: nat, s: State, steps: seq<Step>, id: Id) {
    && id in Run(timeout, s, steps).states
    && (steps == [] || Held(timeout, s, steps[..|steps| - 1], id))
  }

  /** From a `Created` answer on, for as long as the lease is not ended: the row stays the same, every other create
      is told that it is occupied, and once there was one, `get` finds nothing and each successful ping of the
      holder lists the device. */
  lemma {:induction false} LeaseHolds(timeout: nat, s: State, steps: seq<Step>, id: Id)
    requires Held(timeout, s, steps, id)
    ensures id in s.states
    ensures var s' := Run(timeout, s, steps); id in s'.states && SameLease(s.states[id], s'.states[id])
    ensures var s' := Run(timeout, s, steps); var row := s.states[id];
      var lost := row.lost || exists i :: 0 <= i < |steps| && Contends(steps[i], id);
      && (s'.states[id].lost <==> lost) && (forall session :: id in LostIds(s', session) <==> session == row.session && lost)
      && Get(s', id) == if lost || row.data == None then None else Some((row.created, row.data.value))
  {
    if steps != [] {
      var n := |steps| - 1;
      LeaseHolds(timeout, s, steps[..n], id);
      LeaseIsExclusive(timeout, Run(timeout, s, steps[..n]), steps[n], id);
      ContendsNext(steps, id);
    }
  }

  lemma ContendsNext(steps: seq<Step>, id: Id)
    requires steps != []
    ensures var n := |steps| - 1;
      (exists i :: 0 <= i < |steps| && Contends(steps[i], id)) <==>
        (exists i :: 0 <= i < n && Contends(steps[..n][i], id)) || Contends(steps[n], id)
  {
    var n := |steps| - 1;
    if i :| 0 <= i < |steps| && Contends(steps[i], id) {
      assert i < n ==> Contends(steps[..n][i], id);
    }
    if i :| 0 <= i < n && Contends(steps[..n][i], id) {
      assert Contends(steps[i], id);
    }
  }

  /** What a create is answered. */
  lemma CreateAnswers(w: World, s: State, session: Uuid, id: Id, token: string, data: Data, now: int)
    ensures Create(w, s, session, id, token, data, now).1 ==
      if w.lookup(id.application) == Missing then Failure(ApplicationNotFound)
      else if w.lookup(id.application) == LookupFailed || !w.commits then Failure(Internal)
      else if id in s.states then Occupied
      else if session !in s.sessions || w.publish(Connection(id, Some(data.deviceUid), true)) == Failed
      then Failure(Internal)
      else Created
  {
  }

  /** A delete is answered the same whether there was something to delete or not, unless it fails. */
  lemma DeleteAnswers(w: World, s: State, session: Uuid, id: Id, token: string, skipLwt: bool)
    ensures Delete(w, s, session, id, token, skipLwt).1 ==
      if w.commits
         && (id in s.states && s.states[id].session == session && s.states[id].token == token ==>
               Tolerated(w, id, s.states[id], skipLwt))
      then Done else Failure(Internal)
  {
    if id in s.states {
      DisconnectOutcome(w, s.log, id, s.states[id], skipLwt, id);
    }
  }

  lemma CreatedStartsLease(timeout: nat, s: State, step: Step)
    requires step.CreateStep? && Create(step.world, s, step.session, step.id, step.token, step.data, step.now).1 == Created
    ensures step.id !in s.states
    ensures var s' := Apply(timeout, s, step);
      && step.id in s'.states
      && s'.states[step.id] == Row(step.session, step.token, step.now, false, Some(step.data))
      && Get(s', step.id) == Some((step.now, step.data))
  {
  }

  /** No row outlives its session. */
  ghost predicate SessionsExist(s: State) {
    forall id :: id in s.states ==> s.states[id].session in s.sessions
  }

  lemma {:induction false} RowsHaveSessions(timeout: nat, steps: seq<Step>)
    ensures SessionsExist(Run(timeout, EMPTY, steps))
  {
    if steps != [] {
      var n := |steps| - 1;
      RowsHaveSessions(timeout, steps[..n]);
      StepKeepsSessions(timeout, Run(timeout, EMPTY, steps[..n]), steps[n]);
    }
  }

  lemma StepKeepsSessions(timeout: nat, s: State, step: Step)
    requires SessionsExist(s)
    ensures SessionsExist(Apply(timeout, s, step))
  {
    if step.PruneStep? && Prunable(timeout, s, step.session, step.order, step.now) {
      assert forall id :: id in s.states && s.states[id].session == step.session ==> id in step.order;
    }
  }

  // ----- connection events -----

  /** The connection events of one device. */
  function Connections(log: seq<Published>, id: Id): seq<bool> {
    if log == [] then []
    else
      var n := |log| - 1;
      Connections(log[..n], id) + if log[n].Connection? && log[n].id == id then [log[n].connected] else []
  }

  /** Connected and disconnected in turn, connected first. */
  predicate Alternates(events: seq<bool>) {
    && (events != [] ==> events[0])
    && (forall i :: 0 < i < |events| ==> events[i] != events[i - 1])
  }

  predicate SaysConnected(events: seq<bool>) {
    events != [] && events[|events| - 1]
  }

  /** The events tell the truth about one device. */
  ghost predicate Truthful(s: State, id: Id) {
    var events := Connections(s.log, id);
    Alternates(events) && (id in s.states <==> SaysConnected(events))
  }

  lemma Append(log: seq<Published>, ev: Published, id: Id)
    ensures Connections(log + [ev], id) ==
      Connections(log, id) + if ev.Connection? && ev.id == id then [ev.connected] else []
  {
    assert (log + [ev])[..|log|] == log;
  }

  /** The last will, if there is one to send, does not fail. */
  predicate WillPasses(w: World, id: Id, row: Row, skipLwt: bool) {
    skipLwt || WillOf(row).None? || w.publish(Testament(id, UidOf(row), WillOf(row).value)) != Failed
  }

  /** The disconnect of a row is published. */
  predicate Told(w: World, id: Id, row: Row, skipLwt: bool) {
    && w.lookup(id.application) == Found && WillPasses(w, id, row, skipLwt)
    && w.publish(Connection(id, UidOf(row), false)) == Accepted
  }

  /** The disconnect of a row does not fail. It may yet stay unpublished, for want of a configured application. */
  predicate Tolerated(w: World, id: Id, row: Row, skipLwt: bool) {
    || w.lookup(id.application) == Missing
    || (&& w.lookup(id.application) == Found && WillPasses(w, id, row, skipLwt)
        && w.publish(Connection(id, UidOf(row), false)) != Failed)
  }

  lemma SendOutcome(w: World, log: seq<Published>, ev: Published, id: Id)
    ensures var (log', ok) := Send(w, log, ev);
      && (ok <==> w.publish(ev) != Failed)
      && Connections(log', id) ==
         Connections(log, id) + if w.publish(ev) == Accepted && ev.Connection? && ev.id == id then [ev.connected] else []
  {
    Append(log, ev, id);
  }

  lemma DisconnectOutcome(w: World, log: seq<Published>, id: Id, row: Row, skipLwt: bool, other: Id)
    ensures var (log', ok) := Disconnect(w, log, id, row, skipLwt);
      && (ok <==> Tolerated(w, id, row, skipLwt))
      && Connections(log', other) == Connections(log, other) + if other == id && Told(w, id, row, skipLwt) then [false] else []
  {
    if w.lookup(id.application) == Found {
      var log1 := log;
      if !skipLwt && WillOf(row).Some? {
        var will := Testament(id, UidOf(row), WillOf(row).value);
        SendOutcome(w, log, will, other);
        log1 := Send(w, log, will).0;
        assert Connections(log1, other) == Connections(log, other);
      }
      SendOutcome(w, log1, Connection(id, UidOf(row), false), other);
    }
  }

  predicate AllTolerated(w: World, states: map<Id, Row>, order: seq<Id>) {
    forall i :: 0 <= i < |order| ==> order[i] in states && Tolerated(w, order[i], states[order[i]], false)
  }

  /** The rows before it do not fail, and the disconnect of this one is published. */
  predicate Reached(w: World, states: map<Id, Row>, order: seq<Id>, id: Id) {
    && id in states && Told(w, id, states[id], false)
    && exists i :: 0 <= i < |order| && order[i] == id && AllTolerated(w, states, order[..i])
  }

  lemma ReachedNext(w: World, states: map<Id, Row>, order: seq<Id>, id: Id)
    requires order != [] && forall i :: i in order ==> i in states
    ensures var n := |order| - 1;
      && (AllTolerated(w, states, order) <==>
            AllTolerated(w, states, order[..n]) && Tolerated(w, order[n], states[order[n]], false))
      && (Reached(w, states, order, id) <==>
            || Reached(w, states, order[..n], id)
            || (order[n] == id && AllTolerated(w, states, order[..n]) && Told(w, id, states[id], false)))
  {
    var n := |order| - 1;
    assert forall i :: 0 <= i < n ==> order[..n][i] == order[i];
    assert forall i :: 0 <= i <= n ==> order[..n][..i] == order[..i];
    if Reached(w, states, order[..n], id) {
      var i :| 0 <= i < n && order[..n][i] == id && AllTolerated(w, states, order[..n][..i]);
      assert order[i] == id && AllTolerated(w, states, order[..i]);
    }
    if Reached(w, states, order, id) {
      var i :| 0 <= i < |order| && order[i] == id && AllTolerated(w, states, order[..i]);
      assert i < n ==> order[..n][i] == id && AllTolerated(w, states, order[..n][..i]);
    }
  }

  lemma {:induction false} DisconnectsOutcome(w: World, log: seq<Published>, states: map<Id, Row>, order: seq<Id>, id: Id)
    requires Distinct(order) && forall i :: i in order ==> i in states
    ensures var (log', ok) := DisconnectAll(w, log, states, order);
      && (ok <==> AllTolerated(w, states, order))
      && Connections(log', id) == Connections(log, id) + if Reached(w, states, order, id) then [false] else []
  {
    if order != [] {
      var n := |order| - 1;
      DisconnectsOutcome(w, log, states, order[..n], id);
      DisconnectOutcome(w, DisconnectAll(w, log, states, order[..n]).0, order[n], states[order[n]], false, id);
      ReachedNext(w, states, order, id);
      assert Reached(w, states, order[..n], id) ==> id in order[..n];
    }
  }

  // ----- all that is published -----

  /** Everything published for one device. */
  function EventsOf(log: seq<Published>, id: Id): seq<Published> {
    if log == [] then []
    else
      var n := |log| - 1;
      EventsOf(log[..n], id) + if log[n].id == id then [log[n]] else []
  }

  lemma EventsAppend(log: seq<Published>, ev: Published, id: Id)
    ensures EventsOf(log + [ev], id) == EventsOf(log, id) + if ev.id == id then [ev] else []
  {
    assert (log + [ev])[..|log|] == log;
  }

  /** The events that the removal of a row calls for, as far as the world accepts them: the last will, if it is wanted and
      there is one, and then the disconnect. Nothing follows a last will that fails. */
  function Farewell(w: World, id: Id, row: Row, skipLwt: bool): seq<Published> {
    if w.lookup(id.application) != Found then []
    else
      match row.data
      case None => Accept(w, Connection(id, None, false))
      case Some(data) =>
        if skipLwt || data.lwt == None then Accept(w, Connection(id, Some(data.deviceUid), false))
        else
          var will := Testament(id, Some(data.deviceUid), data.lwt.value);
          if w.publish(will) == Failed then []
          else Accept(w, will) + Accept(w, Connection(id, Some(data.deviceUid), false))
  }

  function Accept(w: World, ev: Published): seq<Published> {
    if w.publish(ev) == Accepted then [ev] else []
  }

  lemma DisconnectPublishes(w: World, log: seq<Published>, id: Id, row: Row, skipLwt: bool)
    ensures Disconnect(w, log, id, row, skipLwt).0 == log + Farewell(w, id, row, skipLwt)
  {
  }

  lemma FarewellIsFor(w: World, log: seq<Published>, id: Id, row: Row, skipLwt: bool, other: Id)
    ensures EventsOf(log + Farewell(w, id, row, skipLwt), other) ==
      EventsOf(log, other) + if other == id then Farewell(w, id, row, skipLwt) else []
  {
    var all := Farewell(w, id, row, skipLwt);
    if |all| == 1 {
      EventsAppend(log, all[0], other);
      assert log + all == log + [all[0]];
    } else if |all| == 2 {
      EventsAppend(log, all[0], other);
      EventsAppend(log + [all[0]], all[1], other);
      assert log + all == log + [all[0]] + [all[1]];
    } else {
      assert all == [] && log + all == log;
    }
  }

  /** The disconnects of several rows: the first that fails is the last. */
  predicate ReachedBy(w: World, states: map<Id, Row>, order: seq<Id>, id: Id) {
    exists i :: 0 <= i < |order| && order[i] == id && AllTolerated(w, states, order[..i])
  }

  lemma ReachedByNext(w: World, states: map<Id, Row>, order: seq<Id>, id: Id)
    requires order != []
    ensures var n := |order| - 1;
      ReachedBy(w, states, order, id) <==>
        ReachedBy(w, states, order[..n], id) || (order[n] == id && AllTolerated(w, states, order[..n]))
  {
    var n := |order| - 1;
    assert forall i :: 0 <= i < n ==> order[..n][i] == order[i] && order[..n][..i] == order[..i];
    if ReachedBy(w, states, order[..n], id) {
      var i :| 0 <= i < n && order[..n][i] == id && AllTolerated(w, states, order[..n][..i]);
      assert order[i] == id && AllTolerated(w, states, order[..i]);
    }
    if ReachedBy(w, states, order, id) {
      var i :| 0 <= i < |order| && order[i] == id && AllTolerated(w, states, order[..i]);
      assert i < n ==> order[..n][i] == id && AllTolerated(w, states, order[..n][..i]);
    }
  }

  lemma NextDisconnect(w: World, log: seq<Published>, states: map<Id, Row>, order: seq<Id>, id: Id)
    requires order != [] && forall i :: i in order ==> i in states
    ensures var n := |order| - 1; var (log', ok) := DisconnectAll(w, log, states, order[..n]);
      EventsOf(DisconnectAll(w, log, states, order).0, id) ==
        EventsOf(log', id) + if ok && order[n] == id then Farewell(w, id, states[id], false) else []
  {
    var n := |order| - 1;
    var log' := DisconnectAll(w, log, states, order[..n]).0;
    DisconnectPublishes(w, log', order[n], states[order[n]], false);
    FarewellIsFor(w, log', order[n], states[order[n]], false, id);
  }

  /** What the disconnects of several rows publish for one of them. */
  function Share(w: World, states: map<Id, Row>, order: seq<Id>, id: Id): seq<Published> {
    if id in states && ReachedBy(w, states, order, id) then Farewell(w, id, states[id], false) else []
  }

  lemma ShareNext(w: World, states: map<Id, Row>, order: seq<Id>, id: Id)
    requires order != [] && Distinct(order) && forall i :: i in order ==> i in states
    ensures var n := |order| - 1;
      Share(w, states, order, id) == Share(w, states, order[..n], id)
        + if AllTolerated(w, states, order[..n]) && order[n] == id then Farewell(w, id, states[id], false) else []
  {
    var n := |order| - 1;
    ReachedByNext(w, states, order, id);
    if ReachedBy(w, states, order[..n], id) {
      var i :| 0 <= i < n && order[..n][i] == id;
      assert order[i] == id != order[n];
    }
  }

  lemma Regroup(x: seq<Published>, y: seq<Published>, z: seq<Published>)
    ensures x + y + z == x + (y + z)
  {
  }

  lemma {:induction false} DisconnectsPublish(w: World, log: seq<Published>, states: map<Id, Row>, order: seq<Id>, id: Id)
    requires Distinct(order) && forall i :: i in order ==> i in states
    ensures EventsOf(DisconnectAll(w, log, states, order).0, id) == EventsOf(log, id) + Share(w, states, order, id)
  {
    if order != [] {
      var n := |order| - 1;
      DisconnectsPublish(w, log, states, order[..n], id);
      DisconnectsOutcome(w, log, states, order[..n], id);
      NextDisconnect(w, log, states, order, id);
      ShareNext(w, states, order, id);
      Regroup(EventsOf(log, id), Share(w, states, order[..n], id),
        if AllTolerated(w, states, order[..n]) && order[n] == id then Farewell(w, id, states[id], false) else []);
    }
  }

  /** What a step publishes for a device, by the answers of the world. */
  ghost function Announcement(timeout: nat, s: State, step: Step, id: Id): seq<Published> {
    match step
    case CreateStep(w, session, i, token, data, now) =>
      if i == id && id !in s.states && w.lookup(id.application) == Found && session in s.sessions
      then Accept(w, Connection(id, Some(data.deviceUid), true)) else []
    case DeleteStep(w, session, i, token, skipLwt, now) =>
      if i == id && id in s.states && s.states[id].session == session && s.states[id].token == token
      then Farewell(w, id, s.states[id], skipLwt) else []
    case PruneStep(w, session, order, now) =>
      if Prunable(timeout, s, session, order, now) && id in s.states && ReachedBy(w, s.states, order, id)
      then Farewell(w, id, s.states[id], false) else []
    case _ => []
  }

  /** In every state, that is all that a step publishes for a device, whether it commits or not. */
  lemma StepPublishes(timeout: nat, s: State, step: Step, id: Id)
    ensures EventsOf(Apply(timeout, s, step).log, id) == EventsOf(s.log, id) + Announcement(timeout, s, step, id)
  {
    match step
    case CreateStep(_, _, _, _, _, _) => CreatePublishes(timeout, s, step, id);
    case DeleteStep(_, _, _, _, _, _) => DeletePublishes(timeout, s, step, id);
    case PruneStep(w, session, order, now) =>
      if Prunable(timeout, s, session, order, now) {
        DisconnectsPublish(w, s.log, s.states, order, id);
      }
    case _ =>
  }

  lemma CreateLog(timeout: nat, s: State, step: Step)
    requires step.CreateStep?
    ensures Apply(timeout, s, step).log == s.log +
      if Inserts(s, step) then Accept(step.world, Connection(step.id, Some(step.data.deviceUid), true)) else []
  {
  }

  lemma CreatePublishes(timeout: nat, s: State, step: Step, id: Id)
    requires step.CreateStep?
    ensures EventsOf(Apply(timeout, s, step).log, id) == EventsOf(s.log, id) + Announcement(timeout, s, step, id)
  {
    CreateLog(timeout, s, step);
    EventsAppend(s.log, Connection(step.id, Some(step.data.deviceUid), true), id);
  }

  lemma DeletePublishes(timeout: nat, s: State, step: Step, id: Id)
    requires step.DeleteStep?
    ensures EventsOf(Apply(timeout, s, step).log, id) == EventsOf(s.log, id) + Announcement(timeout, s, step, id)
  {
    if IsHolder(s, step) {
      DisconnectPublishes(step.world, s.log, step.id, s.states[step.id], step.skipLwt);
      FarewellIsFor(step.world, s.log, step.id, s.states[step.id], step.skipLwt, id);
    }
  }

  /** The step wants the last wills of the rows that it removes. */
  predicate WantsWill(step: Step) {
    step.PruneStep? || (step.DeleteStep? && !step.skipLwt)
  }

  /** The last will, if it is wanted, and then the disconnect, as far as the world accepts them. */
  function WillAndDisconnect(w: World, id: Id, data: Data, will: LastWill, wanted: bool): seq<Published> {
    var testament := Testament(id, Some(data.deviceUid), will);
    var disconnect := Connection(id, Some(data.deviceUid), false);
    if w.lookup(id.application) == Missing then []
    else (if wanted && w.publish(testament) == Accepted then [testament] else [])
         + (if w.publish(disconnect) == Accepted then [disconnect] else [])
  }

  lemma FarewellWithWill(w: World, id: Id, row: Row, data: Data, will: LastWill, skipLwt: bool)
    requires row.data == Some(data) && data.lwt == Some(will) && Tolerated(w, id, row, skipLwt)
    ensures Farewell(w, id, row, skipLwt) == WillAndDisconnect(w, id, data, will, !skipLwt)
  {
  }

  lemma RemovalPublishes(timeout: nat, s: State, step: Step, id: Id, data: Data, will: LastWill)
    requires id in s.states && id !in Apply(timeout, s, step).states
    requires s.states[id].data == Some(data) && data.lwt == Some(will)
    ensures step.PruneStep? || step.DeleteStep?
    ensures EventsOf(Apply(timeout, s, step).log, id) ==
      EventsOf(s.log, id) + WillAndDisconnect(step.world, id, data, will, WantsWill(step))
  {
    RemovalIsTolerated(timeout, s, step, id);
    StepPublishes(timeout, s, step, id);
    FarewellWithWill(step.world, id, s.states[id], data, will, !WantsWill(step));
  }

  /** From the creation of a device's state with a last will on: the step that removes it, after whatever happened in
      between, publishes that very will once, and then the disconnect. They go out exactly if the world accepts them. */
  lemma {:induction false} WillIsPublished(timeout: nat, s: State, steps: seq<Step>, last: Step, id: Id, data: Data,
                                           will: LastWill)
    requires Held(timeout, s, steps, id)
    requires id in s.states && s.states[id].data == Some(data) && data.lwt == Some(will)
    requires id !in Apply(timeout, Run(timeout, s, steps), last).states
    ensures last.PruneStep? || last.DeleteStep?
    ensures var before := Run(timeout, s, steps);
      EventsOf(Apply(timeout, before, last).log, id) ==
        EventsOf(before.log, id) + WillAndDisconnect(last.world, id, data, will, WantsWill(last))
  {
    LeaseHolds(timeout, s, steps, id);
    RemovalPublishes(timeout, Run(timeout, s, steps), last, id, data, will);
  }

  /** A step that removes a row did not fail for it. */
  lemma RemovalIsTolerated(timeout: nat, s: State, step: Step, id: Id)
    requires id in s.states && id !in Apply(timeout, s, step).states
    ensures step.DeleteStep? || step.PruneStep?
    ensures Tolerated(step.world, id, s.states[id], !WantsWill(step))
    ensures step.DeleteStep? ==> step.id == id && s.states[id].session == step.session && s.states[id].token == step.token
    ensures step.PruneStep? ==>
      Prunable(timeout, s, step.session, step.order, step.now) && ReachedBy(step.world, s.states, step.order, id)
  {
    match step
    case DeleteStep(w, session, i, token, skipLwt, now) =>
      DisconnectOutcome(w, s.log, id, s.states[id], skipLwt, id);
    case PruneStep(w, session, order, now) =>
      DisconnectsOutcome(w, s.log, s.states, order, id);
      var i :| 0 <= i < |order| && order[i] == id;
      assert AllTolerated(w, s.states, order[..i]);
    case _ =>
  }

  // ----- when events tell the truth -----

  /** What happens to one device: the event that is published, if any, and whether the row comes or goes. */
  ghost predicate Effect(s: State, s': State, id: Id, event: Option<bool>, after: bool) {
    && Connections(s'.log, id) == Connections(s.log, id) + (if event.Some? then [event.value] else [])
    && (id in s'.states <==> after)
  }

  /** The event says what happens to the row. */
  predicate Matches(before: bool, event: Option<bool>, after: bool) {
    if event.Some? then before != after && event.value == after else before == after
  }

  /** Events stay truthful exactly if they match what happens. */
  lemma TruthNeedsMatch(s: State, s': State, id: Id, event: Option<bool>, after: bool)
    requires Truthful(s, id) && Effect(s, s', id, event, after)
    ensures Truthful(s', id) <==> Matches(id in s.states, event, after)
  {
    if event.Some? {
      AlternatesNext(Connections(s.log, id), event.value);
    }
  }

  lemma AlternatesNext(events: seq<bool>, e: bool)
    requires Alternates(events)
    ensures Alternates(events + [e]) <==> e != SaysConnected(events)
  {
    var all, n := events + [e], |events|;
    if n > 0 && e != SaysConnected(events) {
      forall i | 0 < i < |all| ensures all[i] != all[i - 1] {
        assert i < n ==> all[i] == events[i] && events[i] != events[i - 1];
      }
    }
    if n > 0 && e == SaysConnected(events) {
      assert all[n] == all[n - 1];
    }
  }

  /** The create reaches the insert, and so announces the device. */
  predicate Inserts(s: State, step: Step)
    requires step.CreateStep?
  {
    step.id !in s.states && step.world.lookup(step.id.application) == Found && step.session in s.sessions
  }

  predicate IsHolder(s: State, step: Step)
    requires step.DeleteStep?
  {
    && step.id in s.states && s.states[step.id].session == step.session && s.states[step.id].token == step.token
  }

  /** The exact condition under which a step reports truthfully on a device: a published event and a committed
      change of the row come together, or neither does. */
  ghost predicate Reports(timeout: nat, s: State, step: Step, id: Id) {
    match step
    case CreateStep(w, session, i, token, data, now) =>
      i == id && Inserts(s, step) ==>
        var answer := w.publish(Connection(id, Some(data.deviceUid), true));
        answer == Failed || (answer == Accepted <==> w.commits)
    case DeleteStep(w, session, i, token, skipLwt, now) =>
      i == id && IsHolder(s, step) ==>
        (Told(w, id, s.states[id], skipLwt) <==> Tolerated(w, id, s.states[id], skipLwt) && w.commits)
    case PruneStep(w, session, order, now) =>
      Prunable(timeout, s, session, order, now) && id in order ==>
        (Reached(w, s.states, order, id) <==> AllTolerated(w, s.states, order) && w.commits)
    case _ => true
  }

  lemma CreateEffect(s: State, step: Step, id: Id, timeout: nat)
    requires step.CreateStep?
    ensures var inserts := Inserts(s, step) && step.id == id;
      var answer := step.world.publish(Connection(step.id, Some(step.data.deviceUid), true));
      Effect(s, Apply(timeout, s, step), id, if inserts && answer == Accepted then Some(true) else None,
             if inserts then answer != Failed && step.world.commits else id in s.states)
  {
    SendOutcome(step.world, s.log, Connection(step.id, Some(step.data.deviceUid), true), id);
  }

  lemma CreateTruth(s: State, step: Step, id: Id, timeout: nat)
    requires step.CreateStep? && Truthful(s, id)
    ensures Truthful(Apply(timeout, s, step), id) <==> Reports(timeout, s, step, id)
  {
    var inserts := Inserts(s, step) && step.id == id;
    var answer := step.world.publish(Connection(step.id, Some(step.data.deviceUid), true));
    CreateEffect(s, step, id, timeout);
    TruthNeedsMatch(s, Apply(timeout, s, step), id, if inserts && answer == Accepted then Some(true) else None,
      if inserts then answer != Failed && step.world.commits else id in s.states);
  }

  lemma DeleteTruth(s: State, step: Step, id: Id, timeout: nat)
    requires step.DeleteStep? && Truthful(s, id)
    ensures Truthful(Apply(timeout, s, step), id) <==> Reports(timeout, s, step, id)
  {
    var s' := Apply(timeout, s, step);
    if IsHolder(s, step) {
      DisconnectOutcome(step.world, s.log, step.id, s.states[step.id], step.skipLwt, id);
      var sent := step.id == id && Told(step.world, id, s.states[id], step.skipLwt);
      TruthNeedsMatch(s, s', id, if sent then Some(false) else None, id in s'.states);
    }
  }

  lemma PruneTruth(s: State, step: Step, id: Id, timeout: nat)
    requires step.PruneStep? && Truthful(s, id)
    ensures Truthful(Apply(timeout, s, step), id) <==> Reports(timeout, s, step, id)
  {
    var s' := Apply(timeout, s, step);
    if Prunable(timeout, s, step.session, step.order, step.now) {
      DisconnectsOutcome(step.world, s.log, s.states, step.order, id);
      var sent := Reached(step.world, s.states, step.order, id);
      TruthNeedsMatch(s, s', id, if sent then Some(false) else None, id in s'.states);
    }
  }

  lemma StepTruth(timeout: nat, s: State, step: Step, id: Id)
    requires Truthful(s, id)
    ensures Truthful(Apply(timeout, s, step), id) <==> Reports(timeout, s, step, id)
  {
    match step
    case CreateStep(_, _, _, _, _, _) => CreateTruth(s, step, id, timeout);
    case DeleteStep(_, _, _, _, _, _) => DeleteTruth(s, step, id, timeout);
    case PruneStep(_, _, _, _) => PruneTruth(s, step, id, timeout);
    case _ =>
  }

  /** In all states of the run. */
  ghost predicate AlwaysTruthful(timeout: nat, steps: seq<Step>, id: Id) {
    && Truthful(Run(timeout, EMPTY, steps), id)
    && (steps == [] || AlwaysTruthful(timeout, steps[..|steps| - 1], id))
  }

  /** Every step of the run, in the state it is taken in. */
  ghost predicate AlwaysReports(timeout: nat, steps: seq<Step>, id: Id) {
    steps == [] ||
    var n := |steps| - 1;
    AlwaysReports(timeout, steps[..n], id) && Reports(timeout, Run(timeout, EMPTY, steps[..n]), steps[n], id)
  }

  /** In every run, whatever fails: the connection events of a device are truthful all along, alternating from
      connected on and telling at each point whether there is a row, exactly if every step reports truthfully on it. */
  lemma {:induction false} TruthExactly(timeout: nat, steps: seq<Step>, id: Id)
    ensures AlwaysTruthful(timeout, steps, id) <==> AlwaysReports(timeout, steps, id)
  {
    if steps != [] {
      var n := |steps| - 1;
      TruthExactly(timeout, steps[..n], id);
      if AlwaysTruthful(timeout, steps[..n], id) {
        StepTruth(timeout, Run(timeout, EMPTY, steps[..n]), steps[n], id);
      }
    }
  }

  /** The application of the device is registered, its events are accepted, and the transaction commits. */
  ghost predicate GoodFor(w: World, id: Id) {
    && w.lookup(id.application) == Found && w.commits
    && (forall ev: Published :: ev.id == id ==> w.publish(ev) == Accepted)
  }

  /** Nothing fails, though applications may be missing or misconfigured. */
  ghost predicate Harmless(w: World) {
    && (forall a :: w.lookup(a) != LookupFailed)
    && (forall ev :: w.publish(ev) != Failed)
  }

  /** What a step needs for the events of one device. Other devices matter only where they share its session. */
  ghost predicate SoundStep(step: Step, id: Id) {
    && ((step.CreateStep? || step.DeleteStep?) && step.id == id ==> GoodFor(step.world, id))
    && (step.PruneStep? && id in step.order ==> GoodFor(step.world, id) && Harmless(step.world))
  }

  lemma SoundStepReports(timeout: nat, s: State, step: Step, id: Id)
    requires SoundStep(step, id)
    ensures Reports(timeout, s, step, id)
  {
    if step.PruneStep? && Prunable(timeout, s, step.session, step.order, step.now) && id in step.order {
      var w, order := step.world, step.order;
      forall i | 0 <= i < |order| ensures order[i] in s.states && Tolerated(w, order[i], s.states[order[i]], false) {
        assert order[i] in order;
        assert w.lookup(order[i].application) != LookupFailed;
      }
      var i :| 0 <= i < |order| && order[i] == id;
      assert AllTolerated(w, s.states, order[..i]);
    }
  }

  /** So if publishes for the device and commits succeed and its application stays registered, its connection events
      alternate, starting with connected, and the last one says connected exactly when there is a row for it. */
  lemma {:induction false} ConnectionEventsAlternate(timeout: nat, steps: seq<Step>, id: Id)
    requires forall i :: 0 <= i < |steps| ==> SoundStep(steps[i], id)
    ensures var s := Run(timeout, EMPTY, steps); var events := Connections(s.log, id);
      Alternates(events) && (id in s.states <==> SaysConnected(events))
  {
    SoundRunReports(timeout, steps, id);
    TruthExactly(timeout, steps, id);
  }

  lemma {:induction false} SoundRunReports(timeout: nat, steps: seq<Step>, id: Id)
    requires forall i :: 0 <= i < |steps| ==> SoundStep(steps[i], id)
    ensures AlwaysReports(timeout, steps, id)
  {
    if steps != [] {
      var n := |steps| - 1;
      SoundRunReports(timeout, steps[..n], id);
      SoundStepReports(timeout, Run(timeout, EMPTY, steps[..n]), steps[n], id);
    }
  }

  /** Publishing cannot be undone. When a prune publishes the disconnect of a device and then does not commit, the
      session and its rows stay, and the prune that does commit announces the disconnect once more. */
  lemma FailedPruneRepeatsDisconnect(timeout: nat, s: State, first: Step, second: Step, id: Id)
    requires first.PruneStep? && second.PruneStep? && first.session == second.session
    requires Prunable(timeout, s, first.session, first.order, first.now) && Reached(first.world, s.states, first.order, id)
    requires !(AllTolerated(first.world, s.states, first.order) && first.world.commits)
    requires Prunable(timeout, s, second.session, second.order, second.now)
    requires AllTolerated(second.world, s.states, second.order) && second.world.commits
    requires Told(second.world, id, s.states[id], false)
    ensures var s1 := Apply(timeout, s, first); var s2 := Apply(timeout, s1, second);
      && s1.sessions == s.sessions && s1.states == s.states
      && first.session !in s2.sessions && id !in s2.states
      && Connections(s2.log, id) == Connections(s.log, id) + [false] + [false]
  {
    var s1 := Apply(timeout, s, first);
    DisconnectsOutcome(first.world, s.log, s.states, first.order, id);
    assert id in first.order && id in second.order;
    var i :| 0 <= i < |second.order| && second.order[i] == id;
    assert AllTolerated(second.world, s.states, second.order[..i]);
    DisconnectsOutcome(second.world, s1.log, s1.states, second.order, id);
  }

  // ----- sessions over time -----

  predicate NotBefore(steps: seq<Step>, t: int) {
    forall i :: 0 <= i < |steps| ==> t <= steps[i].now
  }

  /** Once a session is expired, no later ping revives it: it only waits to be pruned. */
  lemma {:induction false} ExpiredStaysExpired(timeout: nat, s: State, steps: seq<Step>, session: Uuid, t: int)
    requires session in s.sessions && !Alive(timeout, s.sessions[session], t) && NotBefore(steps, t)
    requires forall i :: 0 <= i < |steps| ==> !(steps[i].InitStep? && steps[i].session == session)
    ensures var s' := Run(timeout, s, steps);
      session in s'.sessions ==> s'.sessions[session] == s.sessions[session]
    ensures forall now :: t <= now ==>
      var s' := Run(timeout, s, steps);
      Apply(timeout, s', PingStep(session, now)) == s'
  {
    if steps != [] {
      var n := |steps| - 1;
      ExpiredStaysExpired(timeout, s, steps[..n], session, t);
    }
  }

  predicate IsPing(step: Step, session: Uuid) {
    step.PingStep? && step.session == session
  }

  function LastPing(steps: seq<Step>, session: Uuid, first: int): int {
    if steps == [] then first
    else
      var n := |steps| - 1;
      if IsPing(steps[n], session) then steps[n].now else LastPing(steps[..n], session, first)
  }

  /** Time does not run backwards, and ends at `end`. */
  predicate Clocked(steps: seq<Step>, end: int) {
    && (forall i, j :: 0 <= i <= j < |steps| ==> steps[i].now <= steps[j].now)
    && (forall i :: 0 <= i < |steps| ==> steps[i].now <= end)
  }

  /** What the client does: each ping comes within an interval of the one before, and the end within one of the last. */
  ghost predicate PingsInTime(timeout: nat, steps: seq<Step>, session: Uuid, first: int, end: int) {
    && (forall i :: 0 <= i < |steps| && IsPing(steps[i], session) ==>
          Alive(timeout, LastPing(steps[..i], session, first), steps[i].now))
    && Alive(timeout, LastPing(steps, session, first), end)
  }

  function TimeAt(steps: seq<Step>, i: nat, end: int): int {
    if i < |steps| then steps[i].now else end
  }

  /** At every step the session is alive by its last ping, since the next ping, or the end, is no earlier. */
  lemma {:induction false} AliveThroughout(timeout: nat, steps: seq<Step>, session: Uuid, first: int, end: int, i: nat)
    requires Clocked(steps, end) && PingsInTime(timeout, steps, session, first, end) && i <= |steps|
    ensures Alive(timeout, LastPing(steps[..i], session, first), TimeAt(steps, i, end))
    decreases |steps| - i
  {
    if i == |steps| {
      assert steps[..i] == steps;
    } else if !IsPing(steps[i], session) {
      AliveThroughout(timeout, steps, session, first, end, i + 1);
      assert steps[..i + 1][..i] == steps[..i];
    }
  }

  lemma {:induction false} KeptAliveUpTo(timeout: nat, s: State, steps: seq<Step>, session: Uuid, end: int, i: nat)
    requires session in s.sessions && Clocked(steps, end)
    requires PingsInTime(timeout, steps, session, s.sessions[session], end) && i <= |steps|
    ensures var s' := Run(timeout, s, steps[..i]);
      session in s'.sessions && s'.sessions[session] == LastPing(steps[..i], session, s.sessions[session])
  {
    if i > 0 {
      KeptAliveUpTo(timeout, s, steps, session, end, i - 1);
      AliveThroughout(timeout, steps, session, s.sessions[session], end, i - 1);
      assert steps[..i][..i - 1] == steps[..i - 1];
      StepKeepsAlive(timeout, Run(timeout, s, steps[..i - 1]), steps[i - 1], session);
    }
  }

  lemma StepKeepsAlive(timeout: nat, s: State, step: Step, session: Uuid)
    requires session in s.sessions && Alive(timeout, s.sessions[session], step.now)
    ensures var s' := Apply(timeout, s, step);
      session in s'.sessions && s'.sessions[session] == if IsPing(step, session) then step.now else s.sessions[session]
  {
  }

  /** A session whose client pings within every interval is never pruned, whatever prunes are attempted, and all its
      pings succeed. */
  lemma {:induction false} KeptAliveIsNotPruned(timeout: nat, s: State, steps: seq<Step>, session: Uuid, end: int)
    requires session in s.sessions && Clocked(steps, end)
    requires PingsInTime(timeout, steps, session, s.sessions[session], end)
    ensures forall i :: 0 <= i <= |steps| ==> session in Run(timeout, s, steps[..i]).sessions
    ensures forall i :: 0 <= i < |steps| && IsPing(steps[i], session) ==>
      var before := Run(timeout, s, steps[..i]); Alive(timeout, before.sessions[session], steps[i].now)
  {
    forall i: nat | i <= |steps|
      ensures session in Run(timeout, s, steps[..i]).sessions
      ensures i < |steps| ==> Alive(timeout, Run(timeout, s, steps[..i]).sessions[session], steps[i].now)
    {
      KeptAliveUpTo(timeout, s, steps, session, end, i);
      AliveThroughout(timeout, steps, session, s.sessions[session], end, i);
    }
  }
}
