/** The creation and removal of applications: which of them are notified. */
module Lifecycle {
  import opened Common
  import opened Registry
  import opened Pipeline
  import R = RegistryRuns
  import O = Outbox
  import W = OutboxRuns
  import L = Losses

  /** A record came or went: its uid, the revision of that, and whether it went without an event. */
  datatype Turn = Turn(uid: Uuid, revision: u64, silent: bool)

  predicate IsDelete(step: Step) {
    step.Transaction? && step.op.DeleteApp?
  }

  /** The last creation or removal of an application in a run, judged by the stored records alone. Only a delete announces
      a removal; an update or clean-up that removes a marked record is silent. */
  ghost function LastTurn(env: Env, policy: UidPolicy, steps: seq<Step>, name: string): Option<Turn> {
    if steps == [] then None
    else
      var n := |steps| - 1;
      var before, after := Run(env, policy, START, steps[..n]).db.apps, Run(env, policy, START, steps).db.apps;
      TurnOf(before, after, steps[n], name, LastTurn(env, policy, steps[..n], name))
  }

  function TurnOf(before: map<string, App>, after: map<string, App>, step: Step, name: string, last: Option<Turn>)
    : Option<Turn>
  {
    if name !in before && name in after then Some(Turn(after[name].uid, after[name].counters.revision, false))
    else if name in before && name !in after
    then Some(Turn(before[name].uid, Increment(before[name].counters.revision), !IsDelete(step)))
    else last
  }

  /** The key of an application as a whole. */
  function RootKey(name: string): O.Key {
    PartKey(name, ".")
  }

  /** The entries for the application under this uid only tell of its creation. */
  ghost predicate OnlyCreated(s: System, name: string, uid: Uuid) {
    forall e :: e in s.outbox.created && O.KeyOf(e) == RootKey(name) && e.uid == uid ==> e.revision == 0
  }

  /** What holds in every state of a run, where `last` is the last turn. */
  ghost predicate Track(env: Env, s: System, name: string, last: Option<Turn>, bound: nat, used: set<Uuid>) {
    && Global(env, s, bound, used, RootKey(name)) && NIL !in used
    && (name in s.db.apps ==> OnlyCreated(s, name, s.db.apps[name].uid))
    && (last.Some? && !last.value.silent ==>
          var c := W.LastCreate(s.outbox.created, RootKey(name));
          c.Some? && O.ChangeOf(c.value) == O.Change(RootKey(name), last.value.uid, last.value.revision))
    && (last.Some? && last.value.silent ==>
          last.value.uid in used && last.value.revision > 0 && OnlyCreated(s, name, last.value.uid))
  }

  /** Events for the application as a whole come from creating and deleting it. */
  lemma RootEvents(env: Env, policy: UidPolicy, db: Db, op: R.Op, events: seq<O.Event>, name: string, ev: O.Event)
    requires Emits(env, policy, db, op, events) && ev in events && O.KeyOf(O.EntryOf(ev)) == RootKey(name)
    ensures Target(op) == name
    ensures var o := R.Exec(env, db, op);
      || (op.CreateApp? && o.Changed? && name !in db.apps && ev == O.Application(env.instance, name, op.uid, ".", 0))
      || (op.DeleteApp? && o.Removed? && name in db.apps
          && ev == O.Application(env.instance, name, db.apps[name].uid, ".", Increment(db.apps[name].counters.revision)))
  {
    if op.UpdateApp? && R.Exec(env, db, op).Changed? {
      L.UpdatesParts(env, db, op, ev.path);
    }
  }

  lemma NoNilRoot(env: Env, policy: UidPolicy, s: System, op: R.Op, events: seq<O.Event>, now: int, name: string,
                  last: Option<Turn>, bound: nat, used: set<Uuid>)
    requires Track(env, s, name, last, bound, used) && Emits(env, policy, s.db, op, events) && NIL !in GivenUid(op)
    ensures NoNil(Apply(env, policy, s, Transaction(op, events, now)), RootKey(name))
  {
    forall e | e in CommitAll(s.outbox, events, now).created && O.KeyOf(e) == RootKey(name) ensures e.uid != NIL {
      BatchCreates(s.outbox, events, now, e);
      if ev :| ev in events && O.EntryOf(ev) == e {
        RootEvents(env, policy, s.db, op, events, name, ev);
      }
    }
  }

  /** A transaction that announces a turn. */
  lemma AnnouncedTurn(env: Env, policy: UidPolicy, s: System, op: R.Op, events: seq<O.Event>, now: int, name: string,
                      last: Option<Turn>, bound: nat, used: set<Uuid>, ev: O.Event)
    requires Track(env, s, name, last, bound, used) && bound + 1 < TWO_63
    requires Emits(env, policy, s.db, op, events) && GivenUid(op) !! used && NIL !in GivenUid(op)
    requires ev in events && O.KeyOf(O.EntryOf(ev)) == RootKey(name)
    ensures W.LastCreate(CommitAll(s.outbox, events, now).created, RootKey(name)) == Some(O.EntryOf(ev))
  {
    var k, entry := RootKey(name), O.EntryOf(ev);
    RootEvents(env, policy, s.db, op, events, name, ev);
    if name in s.db.apps {
      assert R.RecordOk(name, s.db.apps[name], bound);
    }
    forall other | other in events && O.KeyOf(O.EntryOf(other)) == k ensures O.EntryOf(other) == entry {
      RootEvents(env, policy, s.db, op, events, name, other);
    }
    forall i | 0 <= i < |s.outbox.created| && O.KeyOf(s.outbox.created[i]) == k && s.outbox.created[i].uid == entry.uid
      ensures s.outbox.created[i].revision <= entry.revision
    {
      assert s.outbox.created[i] in s.outbox.created;
    }
    BatchKeeps(s.outbox, events, now, k, entry);
  }

  /** The entries for the application under one uid, after a transaction. */
  lemma OnlyCreatedAfter(env: Env, policy: UidPolicy, s: System, op: R.Op, events: seq<O.Event>, now: int, name: string,
                         uid: Uuid)
    requires Emits(env, policy, s.db, op, events) && OnlyCreated(s, name, uid)
    requires !(op.DeleteApp? && op.name == name && R.Exec(env, s.db, op).Removed?)
    ensures OnlyCreated(Apply(env, policy, s, Transaction(op, events, now)), name, uid)
  {
    forall e | e in CommitAll(s.outbox, events, now).created && O.KeyOf(e) == RootKey(name) && e.uid == uid
      ensures e.revision == 0
    {
      BatchCreates(s.outbox, events, now, e);
      if ev :| ev in events && O.EntryOf(ev) == e {
        RootEvents(env, policy, s.db, op, events, name, ev);
      }
    }
  }

  /** A transaction without an event for the application as a whole. */
  lemma UnannouncedKeeps(s: W.State, events: seq<O.Event>, now: int, name: string)
    requires W.Inv(s, RootKey(name)) && W.MonotonePerUid(s.created, RootKey(name)) && !Mentions(events, RootKey(name))
    ensures W.LastCreate(CommitAll(s, events, now).created, RootKey(name)) == W.LastCreate(s.created, RootKey(name))
  {
    BatchKeeps(s, events, now, RootKey(name), O.Entry("", name, None, ".", TWO_63 - 1, ""));
  }

  lemma TransactionKeepsTrack(env: Env, policy: UidPolicy, s: System, op: R.Op, events: seq<O.Event>, now: int,
                              name: string, last: Option<Turn>, bound: nat, used: set<Uuid>)
    requires Track(env, s, name, last, bound, used) && bound + 1 < TWO_63
    requires Emits(env, policy, s.db, op, events) && GivenUid(op) !! used && NIL !in GivenUid(op)
    ensures var step := Transaction(op, events, now); var s' := Apply(env, policy, s, step);
      Track(env, s', name, TurnOf(s.db.apps, s'.db.apps, step, name, last), bound + 1, used + GivenUid(op))
  {
    var k, step := RootKey(name), Transaction(op, events, now);
    var s' := Apply(env, policy, s, step);
    NoNilRoot(env, policy, s, op, events, now, name, last, bound, used);
    TransactionKeepsGlobal(env, policy, s, op, events, now, bound, used, k);
    TurnKeepsLast(env, policy, s, op, events, now, name, last, bound, used);
    TurnKeepsCreated(env, policy, s, op, events, now, name, last, bound, used);
  }

  /** The announced part: the last create is the last turn. */
  lemma TurnKeepsLast(env: Env, policy: UidPolicy, s: System, op: R.Op, events: seq<O.Event>, now: int,
                      name: string, last: Option<Turn>, bound: nat, used: set<Uuid>)
    requires Track(env, s, name, last, bound, used) && bound + 1 < TWO_63
    requires Emits(env, policy, s.db, op, events) && GivenUid(op) !! used && NIL !in GivenUid(op)
    ensures var step := Transaction(op, events, now); var s' := Apply(env, policy, s, step);
      var turn := TurnOf(s.db.apps, s'.db.apps, step, name, last);
      turn.Some? && !turn.value.silent ==>
        var c := W.LastCreate(s'.outbox.created, RootKey(name));
        c.Some? && O.ChangeOf(c.value) == O.Change(RootKey(name), turn.value.uid, turn.value.revision)
  {
    var k := RootKey(name);
    var s' := Apply(env, policy, s, Transaction(op, events, now));
    if Mentions(events, k) {
      var ev :| ev in events && O.KeyOf(O.EntryOf(ev)) == k;
      AnnouncedTurn(env, policy, s, op, events, now, name, last, bound, used, ev);
      EventOfTurn(env, policy, s, op, events, now, name, last, ev);
    } else {
      UnannouncedKeeps(s.outbox, events, now, name);
      TurnsAreMentioned(env, policy, s, op, events, name);
    }
  }

  /** An event for the application as a whole says what the turn is. */
  lemma EventOfTurn(env: Env, policy: UidPolicy, s: System, op: R.Op, events: seq<O.Event>, now: int, name: string,
                    last: Option<Turn>, ev: O.Event)
    requires Emits(env, policy, s.db, op, events) && ev in events && O.KeyOf(O.EntryOf(ev)) == RootKey(name)
    ensures var step := Transaction(op, events, now); var after := After(s.db, R.Exec(env, s.db, op)).apps;
      var turn := TurnOf(s.db.apps, after, step, name, last);
      turn.Some? && !turn.value.silent
      && O.ChangeOf(O.EntryOf(ev)) == O.Change(RootKey(name), turn.value.uid, turn.value.revision)
  {
    RootEvents(env, policy, s.db, op, events, name, ev);
  }

  /** Creations and deletes send an event for the application as a whole. */
  lemma TurnsAreMentioned(env: Env, policy: UidPolicy, s: System, op: R.Op, events: seq<O.Event>, name: string)
    requires Emits(env, policy, s.db, op, events) && !Mentions(events, RootKey(name))
    ensures var after := After(s.db, R.Exec(env, s.db, op)).apps;
      && (name !in s.db.apps ==> name !in after)
      && (name in s.db.apps && name !in after ==> !op.DeleteApp?)
  {
    var after := After(s.db, R.Exec(env, s.db, op)).apps;
    var ev := O.Application(env.instance, name, EventUid(policy, s.db, op), ".",
      if name in s.db.apps then Increment(s.db.apps[name].counters.revision) else 0);
    assert O.KeyOf(O.EntryOf(ev)) == RootKey(name);
    if name in after {
      UidAfter(env, s.db, op, name);
    }
    assert name !in s.db.apps && name in after ==> ev in events;
    assert name in s.db.apps && name !in after && op.DeleteApp? ==> ev in events;
  }

  /** The silent part: what was created under the uid of the record. */
  lemma TurnKeepsCreated(env: Env, policy: UidPolicy, s: System, op: R.Op, events: seq<O.Event>, now: int,
                         name: string, last: Option<Turn>, bound: nat, used: set<Uuid>)
    requires Track(env, s, name, last, bound, used) && bound + 1 < TWO_63
    requires Emits(env, policy, s.db, op, events) && GivenUid(op) !! used
    ensures var step := Transaction(op, events, now); var s' := Apply(env, policy, s, step);
      var turn := TurnOf(s.db.apps, s'.db.apps, step, name, last);
      && (name in s'.db.apps ==> OnlyCreated(s', name, s'.db.apps[name].uid))
      && (turn.Some? && turn.value.silent ==>
            turn.value.uid in used && turn.value.revision > 0 && OnlyCreated(s', name, turn.value.uid))
  {
    var s' := Apply(env, policy, s, Transaction(op, events, now));
    if name in s.db.apps {
      assert R.RecordOk(name, s.db.apps[name], bound);
    }
    if name in s'.db.apps {
      UidAfter(env, s.db, op, name);
      OnlyCreatedAfter(env, policy, s, op, events, now, name, s'.db.apps[name].uid);
    } else if name in s.db.apps && !op.DeleteApp? {
      OnlyCreatedAfter(env, policy, s, op, events, now, name, s.db.apps[name].uid);
    } else if name !in s.db.apps && last.Some? && last.value.silent {
      OnlyCreatedAfter(env, policy, s, op, events, now, name, last.value.uid);
    }
    if last.Some? && last.value.silent && name in s.db.apps && name in s'.db.apps {
      OnlyCreatedAfter(env, policy, s, op, events, now, name, last.value.uid);
    }
  }

  lemma StepKeepsTrack(env: Env, policy: UidPolicy, s: System, step: Step, name: string, last: Option<Turn>, bound: nat,
                       used: set<Uuid>)
    requires Track(env, s, name, last, bound, used) && bound + 1 < TWO_63
    requires GivenUids(step) !! used && NIL !in GivenUids(step)
    ensures var s' := Apply(env, policy, s, step);
      Track(env, s', name, TurnOf(s.db.apps, s'.db.apps, step, name, last), bound + 1, used + GivenUids(step))
  {
    match step
    case Transaction(op, events, now) =>
      if Emits(env, policy, s.db, op, events) {
        TransactionKeepsTrack(env, policy, s, op, events, now, name, last, bound, used);
      } else {
        QuietStepKeepsTrack(env, s, s.outbox, name, last, bound, used, GivenUids(step));
      }
    case Wire(w) =>
      if w.Commit? {
        QuietStepKeepsTrack(env, s, s.outbox, name, last, bound, used, {});
      } else {
        W.StepKeepsInv(s.outbox, w, RootKey(name));
        QuietStepKeepsTrack(env, s, W.Apply(s.outbox, w), name, last, bound, used, {});
      }
  }

  /** A step that creates nothing. */
  lemma QuietStepKeepsTrack(env: Env, s: System, outbox: W.State, name: string, last: Option<Turn>, bound: nat,
                            used: set<Uuid>, more: set<Uuid>)
    requires Track(env, s, name, last, bound, used) && NIL !in more
    requires outbox.created == s.outbox.created && W.Inv(outbox, RootKey(name))
    ensures Track(env, System(s.db, outbox), name, last, bound + 1, used + more)
  {
    GlobalIsMonotone(env, s, bound, used, RootKey(name));
  }

  lemma {:induction false} RunTracks(env: Env, policy: UidPolicy, steps: seq<Step>, name: string)
    requires FreshUids(steps) && |steps| + 1 < TWO_63
    ensures Track(env, Run(env, policy, START, steps), name, LastTurn(env, policy, steps, name), |steps|, UidsOf(steps))
  {
    if steps != [] {
      var n := |steps| - 1;
      var s, used := Run(env, policy, START, steps[..n]), UidsOf(steps[..n]);
      RunTracks(env, policy, steps[..n], name);
      StepKeepsTrack(env, policy, s, steps[n], name, LastTurn(env, policy, steps[..n], name), n, used);
      assert UidsOf(steps) == used + GivenUids(steps[n]);
    }
  }

  /** In every run of the whole system, under either policy, the last creation or removal of an application is notified,
      exactly unless an update or clean-up removed it. */
  lemma {:induction false} TurnsAreNotified(env: Env, policy: UidPolicy, steps: seq<Step>, name: string)
    requires FreshUids(steps) && |steps| + 1 < TWO_63
    ensures var last := LastTurn(env, policy, steps, name);
      last.Some? ==>
        (Carried(Run(env, policy, START, steps).outbox, O.Change(RootKey(name), last.value.uid, last.value.revision))
         <==> !last.value.silent)
  {
    var s, last := Run(env, policy, START, steps), LastTurn(env, policy, steps, name);
    RunTracks(env, policy, steps, name);
    if last.Some? {
      var c := O.Change(RootKey(name), last.value.uid, last.value.revision);
      if last.value.silent && Carried(s.outbox, c) {
        CarriedIsCreated(s.outbox, c);
      }
    }
  }
}
