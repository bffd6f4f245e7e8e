/** Which changes the pipeline loses: exactly when, and how. */
module Losses {
  import opened Common
  import opened Registry
  import opened Pipeline
  import R = RegistryRuns
  import O = Outbox
  import W = OutboxRuns

  /** The row of the key stands for this change. */
  predicate RowHolds(o: W.State, c: O.Change) {
    c.key in o.rows && O.ChangeOfRow(c.key, o.rows[c.key]) == c
  }

  /** A row of the same uid that is ahead of the change, so that the upsert skips it. */
  predicate Stale(rows: O.Table, c: O.Change) {
    c.key in rows && rows[c.key].uid == c.uid && rows[c.key].revision > AsI64(c.revision)
  }

  /** What a batch does to the row of a key for which it brings one entry. */
  lemma {:induction false} BatchWritesRow(s: W.State, events: seq<O.Event>, now: int, entry: O.Entry)
    requires forall ev :: ev in events && O.KeyOf(O.EntryOf(ev)) == O.KeyOf(entry) ==> O.EntryOf(ev) == entry
    ensures var s', k := CommitAll(s, events, now), O.KeyOf(entry);
      && s'.seen == s.seen && s'.wire == s.wire
      && (k in s.rows ==> k in s'.rows)
      && (Stale(s.rows, O.ChangeOf(entry)) || !Mentions(events, k) ==>
            (k in s'.rows <==> k in s.rows) && (k in s.rows ==> s'.rows[k] == s.rows[k]))
      && (!Stale(s.rows, O.ChangeOf(entry)) && Mentions(events, k) ==> RowHolds(s', O.ChangeOf(entry)))
  {
    if events != [] {
      var n := |events| - 1;
      assert events[n] in events;
      BatchWritesRow(s, events[..n], now, entry);
      MentionsNext(events, O.KeyOf(entry));
    }
  }

  /** What an effective update should write for a part. */
  function EntryFor(env: Env, policy: UidPolicy, s: System, op: R.Op, p: string): O.Entry
    requires R.Exec(env, s.db, op).Changed?
  {
    O.EntryOf(O.Application(env.instance, Target(op), EventUid(policy, s.db, op), p, R.Exec(env, s.db, op).revision))
  }

  lemma EventsWriteRow(s: W.State, events: seq<O.Event>, now: int, env: Env, name: string, uid: Uuid, revision: u64,
                       paths: set<string>, p: string)
    requires AreEvents(events, env, name, uid, revision, paths) && p in paths
    ensures var c := O.ChangeOf(O.EntryOf(O.Application(env.instance, name, uid, p, revision)));
      RowHolds(CommitAll(s, events, now), c) <==> !Stale(s.rows, c)
  {
    var ev0 := O.Application(env.instance, name, uid, p, revision);
    assert ev0 in events;
    BatchWritesRow(s, events, now, O.EntryOf(ev0));
  }

  lemma UpdateChangesPart(env: Env, db: Db, op: R.Op, p: string, bound: nat)
    requires R.Inv(env, db, bound) && bound + 1 < TWO_63
    requires op.UpdateApp? && op.app.name in db.apps
    requires var o := R.Exec(env, db, op); o.Changed? && p in o.paths
    ensures var o := R.Exec(env, db, op); var name := op.app.name;
      && name in o.db.apps && p in ChangedParts(db.apps[name], o.db.apps[name])
      && o.revision == o.db.apps[name].counters.revision < TWO_63
  {
    OpChangesParts(env, db, op, op.app.name, bound);
    assert R.RecordOk(op.app.name, db.apps[op.app.name], bound);
  }

  /** The changes that are delivered during a run. */
  ghost function Delivered(env: Env, policy: UidPolicy, s: System, steps: seq<Step>): set<O.Change> {
    if steps == [] then {}
    else
      var n := |steps| - 1;
      Delivered(env, policy, s, steps[..n]) + match steps[n] {
        case Wire(Deliver(ev)) =>
          if ev in Run(env, policy, s, steps[..n]).outbox.wire then {O.ChangeOf(O.EntryOf(ev))} else {}
        case _ => {}
      }
  }

  /** A delivery of `d` removes the row of `c`. */
  predicate Removes(d: O.Change, c: O.Change) {
    d.key == c.key && d.uid == c.uid && AsI64(c.revision) <= AsI64(d.revision)
  }

  /** The same uid, and a greater revision. */
  predicate Overtakes(d: O.Change, c: O.Change) {
    d.key == c.key && d.uid == c.uid && AsI64(c.revision) < AsI64(d.revision)
  }

  lemma RemovesExactly(d: O.Change, c: O.Change)
    ensures Removes(d, c) <==> d == c || Overtakes(d, c)
  {
  }

  lemma DeliveryAndRow(o: W.State, ev: O.Event, c: O.Change)
    requires ev in o.wire
    ensures RowHolds(W.Apply(o, W.Deliver(ev)), c) <==> RowHolds(o, c) && !Removes(O.ChangeOf(O.EntryOf(ev)), c)
  {
  }

  /** No step of the run commits an entry for the key. */
  ghost predicate Spares(steps: seq<Step>, k: O.Key) {
    forall i :: 0 <= i < |steps| ==> steps[i].Wire? || !Mentions(steps[i].events, k)
  }

  /** While no entry for its key is committed, a row stays until a delivery removes it. */
  lemma {:induction false} RowUntilDelivered(env: Env, policy: UidPolicy, s: System, steps: seq<Step>, c: O.Change)
    requires Spares(steps, c.key)
    ensures RowHolds(Run(env, policy, s, steps).outbox, c) <==>
      RowHolds(s.outbox, c) && forall d :: d in Delivered(env, policy, s, steps) ==> !Removes(d, c)
  {
    if steps != [] {
      var n := |steps| - 1;
      RowUntilDelivered(env, policy, s, steps[..n], c);
      StepAndRow(env, policy, Run(env, policy, s, steps[..n]), steps[n], c);
    }
  }

  lemma StepAndRow(env: Env, policy: UidPolicy, s: System, step: Step, c: O.Change)
    requires step.Wire? || !Mentions(step.events, c.key)
    ensures RowHolds(Apply(env, policy, s, step).outbox, c) <==>
      && RowHolds(s.outbox, c)
      && !(step.Wire? && step.step.Deliver? && step.step.event in s.outbox.wire
           && Removes(O.ChangeOf(O.EntryOf(step.step.event)), c))
  {
    match step
    case Transaction(op, events, now) =>
      BatchWritesRow(s.outbox, events, now, O.Entry("", c.key.app, Some(c.key.device), c.key.path, 0, ""));
    case Wire(Deliver(ev)) =>
      if ev in s.outbox.wire {
        DeliveryAndRow(s.outbox, ev, c);
      }
    case _ =>
  }

  // ----- what is delivered was created -----

  lemma {:induction false} CommitAllKeepsHistory(s: W.State, events: seq<O.Event>, now: int, k: O.Key)
    requires W.FromHistory(s, k)
    ensures W.FromHistory(CommitAll(s, events, now), k)
  {
    if events != [] {
      var n := |events| - 1;
      CommitAllKeepsHistory(s, events[..n], now, k);
      W.StepKeepsHistory(CommitAll(s, events[..n], now), W.Commit(O.EntryOf(events[n]), now), k);
    }
  }

  lemma StepKeepsHistory(env: Env, policy: UidPolicy, s: System, step: Step, k: O.Key)
    requires W.FromHistory(s.outbox, k)
    ensures W.FromHistory(Apply(env, policy, s, step).outbox, k)
  {
    match step
    case Transaction(op, events, now) => CommitAllKeepsHistory(s.outbox, events, now, k);
    case Wire(w) => W.StepKeepsHistory(s.outbox, w, k);
  }

  lemma {:induction false} RunKeepsHistory(env: Env, policy: UidPolicy, s: System, steps: seq<Step>, k: O.Key)
    requires W.FromHistory(s.outbox, k)
    ensures W.FromHistory(Run(env, policy, s, steps).outbox, k)
  {
    if steps != [] {
      var n := |steps| - 1;
      RunKeepsHistory(env, policy, s, steps[..n], k);
      StepKeepsHistory(env, policy, Run(env, policy, s, steps[..n]), steps[n], k);
    }
  }

  lemma {:induction false} SparedKeyHasNoEntries(env: Env, policy: UidPolicy, s: System, steps: seq<Step>, e: O.Entry)
    requires Spares(steps, O.KeyOf(e))
    ensures e in Run(env, policy, s, steps).outbox.created <==> e in s.outbox.created
  {
    if steps != [] {
      var n := |steps| - 1;
      SparedKeyHasNoEntries(env, policy, s, steps[..n], e);
      if steps[n].Transaction? {
        BatchCreates(Run(env, policy, s, steps[..n]).outbox, steps[n].events, steps[n].now, e);
      }
    }
  }

  lemma {:induction false} DeliveredWasCreated(env: Env, policy: UidPolicy, s: System, steps: seq<Step>, d: O.Change)
    requires W.FromHistory(s.outbox, d.key) && Spares(steps, d.key) && d in Delivered(env, policy, s, steps)
    ensures exists e :: e in s.outbox.created && O.ChangeOf(e) == d
  {
    var n := |steps| - 1;
    if d in Delivered(env, policy, s, steps[..n]) {
      DeliveredWasCreated(env, policy, s, steps[..n], d);
    } else {
      var before := Run(env, policy, s, steps[..n]);
      RunKeepsHistory(env, policy, s, steps[..n], d.key);
      var i :| 0 <= i < |before.outbox.created| && O.ChangeOf(before.outbox.created[i]) == d;
      SparedKeyHasNoEntries(env, policy, s, steps[..n], before.outbox.created[i]);
    }
  }

  // ----- the exact condition -----

  /** Whatever follows, the change is in its row or has been delivered. Further entries for its key are not considered:
      they are later changes of the part. */
  ghost predicate Safe(env: Env, policy: UidPolicy, s: System, c: O.Change) {
    forall steps :: Spares(steps, c.key) ==>
      RowHolds(Run(env, policy, s, steps).outbox, c) || c in Delivered(env, policy, s, steps)
  }

  ghost predicate NothingOvertakes(created: seq<O.Entry>, c: O.Change) {
    forall e :: e in created ==> !Overtakes(O.ChangeOf(e), c)
  }

  /** A change is safe exactly if it is in its row and nothing that was ever created overtakes it. */
  lemma SafeExactly(env: Env, policy: UidPolicy, s: System, c: O.Change)
    requires W.FromHistory(s.outbox, c.key)
    ensures Safe(env, policy, s, c) <==> RowHolds(s.outbox, c) && NothingOvertakes(s.outbox.created, c)
  {
    if RowHolds(s.outbox, c) && NothingOvertakes(s.outbox.created, c) {
      forall steps | Spares(steps, c.key)
        ensures RowHolds(Run(env, policy, s, steps).outbox, c) || c in Delivered(env, policy, s, steps)
      {
        NotOvertaken(env, policy, s, steps, c);
      }
    }
    if Safe(env, policy, s, c) {
      assert Spares([], c.key) && Run(env, policy, s, []) == s && Delivered(env, policy, s, []) == {};
      forall e | e in s.outbox.created ensures !Overtakes(O.ChangeOf(e), c) {
        if Overtakes(O.ChangeOf(e), c) {
          OvertakenIsLost(env, policy, s, e, c);
        }
      }
    }
  }

  lemma NotOvertaken(env: Env, policy: UidPolicy, s: System, steps: seq<Step>, c: O.Change)
    requires W.FromHistory(s.outbox, c.key) && Spares(steps, c.key)
    requires RowHolds(s.outbox, c) && NothingOvertakes(s.outbox.created, c)
    ensures RowHolds(Run(env, policy, s, steps).outbox, c) || c in Delivered(env, policy, s, steps)
  {
    RowUntilDelivered(env, policy, s, steps, c);
    if d :| d in Delivered(env, policy, s, steps) && Removes(d, c) {
      DeliveredWasCreated(env, policy, s, steps, d);
      RemovesExactly(d, c);
    }
  }

  /** The run that loses it: the overtaking event is sent, perhaps once more, and arrives. */
  lemma OvertakenIsLost(env: Env, policy: UidPolicy, s: System, e: O.Entry, c: O.Change)
    requires e in s.outbox.created && Overtakes(O.ChangeOf(e), c)
    ensures !Safe(env, policy, s, c)
  {
    var publish, deliver := Wire(W.Publish(e)), Wire(W.Deliver(O.EventOf(e)));
    var steps := [publish, deliver];
    var s1 := Apply(env, policy, s, publish);
    assert steps[..1] == [publish] && [publish][..0] == [];
    assert Run(env, policy, s, []) == s && Run(env, policy, s, [publish]) == s1;
    assert Delivered(env, policy, s, []) == {} && Delivered(env, policy, s, [publish]) == {};
    assert Delivered(env, policy, s, steps) == {O.ChangeOf(e)};
    DeliveryAndRow(s1.outbox, O.EventOf(e), c);
    assert Spares(steps, c.key);
  }

  // ----- where overtaking entries come from -----

  lemma {:induction false} RunKeepsRegistry(env: Env, policy: UidPolicy, s: System, steps: seq<Step>, bound: nat)
    requires R.Inv(env, s.db, bound)
    ensures R.Inv(env, Run(env, policy, s, steps).db, bound + |steps|)
  {
    if steps != [] {
      var n := |steps| - 1;
      RunKeepsRegistry(env, policy, s, steps[..n], bound);
      StepKeepsRegistry(env, policy, Run(env, policy, s, steps[..n]), steps[n], bound + n);
    }
  }

  /** While a record lives, no entry for a part of it gets ahead of it. */
  lemma {:induction false} LifeIsWithin(env: Env, policy: UidPolicy, s: System, steps: seq<Step>, name: string, p: string,
                                        bound: nat, e: O.Entry)
    requires R.Inv(env, s.db, bound) && bound + |steps| < TWO_63 && Lives(env, policy, s, steps, name) && p != "."
    requires var s' := Run(env, policy, s, steps); e in s'.outbox.created && e !in s.outbox.created
    requires O.KeyOf(e) == PartKey(name, p)
    ensures name in Run(env, policy, s, steps).db.apps
    ensures e.revision <= Run(env, policy, s, steps).db.apps[name].counters.revision
  {
    var n := |steps| - 1;
    var before := Run(env, policy, s, steps[..n]);
    LivesBefore(env, policy, s, steps, name);
    RunKeepsRegistry(env, policy, s, steps[..n], bound);
    if e in before.outbox.created {
      LifeIsWithin(env, policy, s, steps[..n], name, p, bound, e);
    }
    StepIsWithin(env, policy, before, steps[n], name, p, bound + n, e);
  }

  lemma StepIsWithin(env: Env, policy: UidPolicy, s: System, step: Step, name: string, p: string, bound: nat, e: O.Entry)
    requires R.Inv(env, s.db, bound) && bound < TWO_63 && p != "." && O.KeyOf(e) == PartKey(name, p)
    requires var s' := Apply(env, policy, s, step);
      name in s.db.apps && name in s'.db.apps && e in s'.outbox.created
    requires e in s.outbox.created ==> e.revision <= s.db.apps[name].counters.revision
    ensures e.revision <= Apply(env, policy, s, step).db.apps[name].counters.revision
  {
    if step.Transaction? && Emits(env, policy, s.db, step.op, step.events) {
      OpChangesParts(env, s.db, step.op, name, bound);
      BatchCreates(s.outbox, step.events, step.now, e);
      var o := R.Exec(env, s.db, step.op);
      if !(o.Changed? && Target(step.op) == name && !step.op.CleanApp? && p in o.paths) {
        NoEventForPart(env, policy, s.db, step.op, step.events, name, p);
      }
    }
  }

  /** The effect of an update on what matters for its safety. */
  lemma UpdateAndHistory(env: Env, policy: UidPolicy, s: System, op: R.Op, events: seq<O.Event>, now: int, p: string,
                         bound: nat)
    requires R.Inv(env, s.db, bound) && bound + 1 < TWO_63
    requires op.UpdateApp? && op.app.name in s.db.apps && Emits(env, policy, s.db, op, events)
    requires var o := R.Exec(env, s.db, op); o.Changed? && p in o.paths
    requires W.FromHistory(s.outbox, PartKey(op.app.name, p))
    ensures var s1 := Apply(env, policy, s, Transaction(op, events, now)); var c := O.ChangeOf(EntryFor(env, policy, s, op, p));
      && W.FromHistory(s1.outbox, c.key)
      && (RowHolds(s1.outbox, c) && NothingOvertakes(s1.outbox.created, c) <==> NothingOvertakes(s.outbox.created, c))
  {
    var k := PartKey(op.app.name, p);
    var o := R.Exec(env, s.db, op);
    var s1 := Apply(env, policy, s, Transaction(op, events, now));
    var c := O.ChangeOf(EntryFor(env, policy, s, op, p));
    CommitAllKeepsHistory(s.outbox, events, now, k);
    EventsWriteRow(s.outbox, events, now, env, op.app.name, EventUid(policy, s.db, op), o.revision, o.paths, p);
    StaleWasCreated(s.outbox, c);
    forall e | e in s1.outbox.created && O.KeyOf(e) == k ensures e in s.outbox.created || O.ChangeOf(e) == c {
      BatchCreates(s.outbox, events, now, e);
    }
    forall e | e in s.outbox.created ensures e in s1.outbox.created {
      BatchCreates(s.outbox, events, now, e);
    }
  }

  lemma StaleWasCreated(o: W.State, c: O.Change)
    requires W.FromHistory(o, c.key)
    ensures Stale(o.rows, c) ==> !NothingOvertakes(o.created, c)
  {
    if Stale(o.rows, c) {
      var i :| 0 <= i < |o.created| && O.ChangeOf(o.created[i]) == O.ChangeOfRow(c.key, o.rows[c.key]);
      assert o.created[i] in o.created && Overtakes(O.ChangeOf(o.created[i]), c);
    }
  }

  /** The exact condition under which changes are lost, in every run of the whole system and under either policy. An
      update during the life of a record is safe, whatever follows, if and only if no entry that was written before the
      record was created has the key and the uid of its events, and a greater revision (as stored). So with real uids
      all updates are safe. The nil uid, which updates of applications carry, also stands in the entries of earlier
      applications of that name; and then updates are at risk until the new revisions have caught up. */
  lemma {:induction false} LostExactly(env: Env, policy: UidPolicy, before: seq<Step>, creation: Step, rest: seq<Step>,
                                       op: R.Op, events: seq<O.Event>, now: int, p: string)
    requires |before| + |rest| + 2 < TWO_63 && op.UpdateApp?
    requires IsCreation(env, policy, Run(env, policy, START, before), creation, op.app.name)
    requires Lives(env, policy, Run(env, policy, START, before + [creation]), rest, op.app.name)
    requires var s := Run(env, policy, Run(env, policy, START, before + [creation]), rest);
      Emits(env, policy, s.db, op, events) && R.Exec(env, s.db, op).Changed? && p in R.Exec(env, s.db, op).paths
    ensures var name := op.app.name;
      var s := Run(env, policy, Run(env, policy, START, before + [creation]), rest);
      var s1 := Apply(env, policy, s, Transaction(op, events, now));
      && name in s.db.apps && name in s1.db.apps && p in ChangedParts(s.db.apps[name], s1.db.apps[name])
      && var c := O.Change(PartKey(name, p), EventUid(policy, s.db, op), s1.db.apps[name].counters.revision);
         Safe(env, policy, s1, c) <==> NothingOvertakes(Run(env, policy, START, before).outbox.created, c)
  {
    var name, all := op.app.name, before + [creation];
    var s0 := Run(env, policy, START, all);
    var s := Run(env, policy, s0, rest);
    var bound := |all| + |rest|;
    RunKeepsRegistry(env, policy, START, all, 0);
    RunKeepsRegistry(env, policy, s0, rest, |all|);
    RunKeepsHistory(env, policy, START, all, PartKey(name, p));
    RunKeepsHistory(env, policy, s0, rest, PartKey(name, p));
    assert rest == [] ==> s == s0;
    UpdatesParts(env, s.db, op, p);
    UpdateChangesPart(env, s.db, op, p, bound);
    OpChangesParts(env, s.db, op, name, bound);
    UpdateAndHistory(env, policy, s, op, events, now, p, bound);
    var c := O.ChangeOf(EntryFor(env, policy, s, op, p));
    SafeExactly(env, policy, Apply(env, policy, s, Transaction(op, events, now)), c);
    OvertakingIsEarlier(env, policy, before, creation, rest, name, p, c);
  }

  lemma UpdatesParts(env: Env, db: Db, op: R.Op, p: string)
    requires op.UpdateApp? && R.Exec(env, db, op).Changed? && p in R.Exec(env, db, op).paths
    ensures p != "."
  {
  }

  /** While a record lives its uid stays. */
  lemma {:induction false} LifeKeepsUid(env: Env, policy: UidPolicy, s: System, steps: seq<Step>, name: string)
    requires Lives(env, policy, s, steps, name)
    ensures name in s.db.apps && name in Run(env, policy, s, steps).db.apps
    ensures Run(env, policy, s, steps).db.apps[name].uid == s.db.apps[name].uid
  {
    if steps != [] {
      var n := |steps| - 1;
      LivesBefore(env, policy, s, steps, name);
      LifeKeepsUid(env, policy, s, steps[..n], name);
      StepKeepsUid(env, policy, Run(env, policy, s, steps[..n]), steps[n], name);
    }
  }

  lemma StepKeepsUid(env: Env, policy: UidPolicy, s: System, step: Step, name: string)
    requires name in s.db.apps && name in Apply(env, policy, s, step).db.apps
    ensures Apply(env, policy, s, step).db.apps[name].uid == s.db.apps[name].uid
  {
    if step.Transaction? {
      if Emits(env, policy, s.db, step.op, step.events) {
        UidAfter(env, s.db, step.op, name);
      }
    }
  }

  /** With the uid of the record in every event, as devices have it, every update is safe. */
  lemma {:induction false} RealUidsAreSafe(env: Env, before: seq<Step>, creation: Step, rest: seq<Step>,
                                           op: R.Op, events: seq<O.Event>, now: int, p: string)
    requires |before| + |rest| + 2 < TWO_63 && op.UpdateApp? && FreshUids(before + [creation])
    requires IsCreation(env, RecordUid, Run(env, RecordUid, START, before), creation, op.app.name)
    requires Lives(env, RecordUid, Run(env, RecordUid, START, before + [creation]), rest, op.app.name)
    requires var s := Run(env, RecordUid, Run(env, RecordUid, START, before + [creation]), rest);
      Emits(env, RecordUid, s.db, op, events) && R.Exec(env, s.db, op).Changed? && p in R.Exec(env, s.db, op).paths
    ensures var name := op.app.name;
      var s := Run(env, RecordUid, Run(env, RecordUid, START, before + [creation]), rest);
      var s1 := Apply(env, RecordUid, s, Transaction(op, events, now));
      && name in s.db.apps && name in s1.db.apps
      && Safe(env, RecordUid, s1, O.Change(PartKey(name, p), s.db.apps[name].uid, s1.db.apps[name].counters.revision))
  {
    var name, all := op.app.name, before + [creation];
    assert all[..|before|] == before;
    var b := Run(env, RecordUid, START, before);
    var s0 := Run(env, RecordUid, START, all);
    LostExactly(env, RecordUid, before, creation, rest, op, events, now, p);
    RecordUidsAreReal(env, before);
    LifeKeepsUid(env, RecordUid, s0, rest, name);
    UidAfter(env, b.db, creation.op, name);
  }

  /** Only entries from before the creation of a record can overtake its next change. */
  lemma OvertakingIsEarlier(env: Env, policy: UidPolicy, before: seq<Step>, creation: Step, rest: seq<Step>, name: string,
                            p: string, c: O.Change)
    requires |before| + |rest| + 2 < TWO_63 && p != "." && c.key == PartKey(name, p)
    requires IsCreation(env, policy, Run(env, policy, START, before), creation, name)
    requires Lives(env, policy, Run(env, policy, START, before + [creation]), rest, name)
    requires var s := Run(env, policy, Run(env, policy, START, before + [creation]), rest);
      name in s.db.apps && c.revision == s.db.apps[name].counters.revision + 1 < TWO_63
    ensures var s := Run(env, policy, Run(env, policy, START, before + [creation]), rest);
      NothingOvertakes(s.outbox.created, c) <==> NothingOvertakes(Run(env, policy, START, before).outbox.created, c)
  {
    var all := before + [creation];
    assert all[..|before|] == before;
    var b := Run(env, policy, START, before);
    var s0 := Run(env, policy, START, all);
    var s := Run(env, policy, s0, rest);
    RunKeepsRegistry(env, policy, START, all, 0);
    forall e | e in s.outbox.created && Overtakes(O.ChangeOf(e), c) ensures e in b.outbox.created {
      OvertakingPrecedesLife(env, policy, s0, rest, name, p, |all|, e, c);
      CreationWritesNoPart(env, policy, b, creation, name, p, e);
    }
    forall e | e in b.outbox.created && Overtakes(O.ChangeOf(e), c) ensures e in s.outbox.created {
      CreatedStays(env, policy, b, creation, e);
      CreatedStaysInRun(env, policy, s0, rest, e);
    }
  }

  lemma OvertakingPrecedesLife(env: Env, policy: UidPolicy, s: System, steps: seq<Step>, name: string, p: string, bound: nat,
                               e: O.Entry, c: O.Change)
    requires R.Inv(env, s.db, bound) && bound + |steps| < TWO_63 && Lives(env, policy, s, steps, name) && p != "."
    requires var s' := Run(env, policy, s, steps);
      && name in s'.db.apps && e in s'.outbox.created
      && c.key == PartKey(name, p) && c.revision == s'.db.apps[name].counters.revision + 1 < TWO_63
    requires Overtakes(O.ChangeOf(e), c)
    ensures e in s.outbox.created
  {
    if e !in s.outbox.created {
      LifeIsWithin(env, policy, s, steps, name, p, bound, e);
    }
  }

  lemma {:induction false} CreatedStaysInRun(env: Env, policy: UidPolicy, s: System, steps: seq<Step>, e: O.Entry)
    requires e in s.outbox.created
    ensures e in Run(env, policy, s, steps).outbox.created
  {
    if steps != [] {
      var n := |steps| - 1;
      CreatedStaysInRun(env, policy, s, steps[..n], e);
      CreatedStays(env, policy, Run(env, policy, s, steps[..n]), steps[n], e);
    }
  }

  /** A batch without an entry for a part leaves its row. */
  lemma OtherEventsKeepRow(s: W.State, events: seq<O.Event>, now: int, name: string, p: string)
    requires (forall ev :: ev in events ==> ev.path == ".") && p != "." && PartKey(name, p) in s.rows
    ensures var s', k := CommitAll(s, events, now), PartKey(name, p); k in s'.rows && s'.rows[k] == s.rows[k]
  {
    assert !Mentions(events, PartKey(name, p));
    BatchWritesRow(s, events, now, O.Entry("", name, None, p, 0, ""));
  }

  /** How application updates, which carry the nil uid, come to lose a change. If an application is deleted and
      created again while a row of its updates is still in the outbox, then the first update of the same part is not
      notified, for the stale row is ahead of it. */
  lemma {:induction false} RecreationLosesChange(env: Env, s: System, steps: seq<Step>, name: string, p: string, bound: nat)
    requires R.Inv(env, s.db, bound) && bound + 4 < TWO_63 && p != "."
    requires var k := PartKey(name, p); k in s.outbox.rows && s.outbox.rows[k].uid == NIL && s.outbox.rows[k].revision > 1
    requires |steps| == 3 && (forall i :: 0 <= i < 3 ==> steps[i].Transaction? && Target(steps[i].op) == name)
    requires steps[0].op.DeleteApp? && steps[1].op.CreateApp? && steps[2].op.UpdateApp?
    requires Emits(env, NilUid, s.db, steps[0].op, steps[0].events) && R.Exec(env, s.db, steps[0].op).Removed?
    requires var db := Apply(env, NilUid, s, steps[0]).db;
      Emits(env, NilUid, db, steps[1].op, steps[1].events) && R.Exec(env, db, steps[1].op).Changed?
    requires var db := Apply(env, NilUid, Apply(env, NilUid, s, steps[0]), steps[1]).db;
      && Emits(env, NilUid, db, steps[2].op, steps[2].events)
      && R.Exec(env, db, steps[2].op).Changed? && p in R.Exec(env, db, steps[2].op).paths
    ensures var s2 := Apply(env, NilUid, Apply(env, NilUid, s, steps[0]), steps[1]); var s3 := Apply(env, NilUid, s2, steps[2]);
      && name in s2.db.apps && name in s3.db.apps && p in ChangedParts(s2.db.apps[name], s3.db.apps[name])
      && !Notified(NilUid, s3, name, p, s3.db.apps[name].counters.revision)
  {
    var k := PartKey(name, p);
    var s1 := Apply(env, NilUid, s, steps[0]);
    var s2 := Apply(env, NilUid, s1, steps[1]);
    OtherEventsKeepRow(s.outbox, steps[0].events, steps[0].now, name, p);
    OtherEventsKeepRow(s1.outbox, steps[1].events, steps[1].now, name, p);
    StepKeepsRegistry(env, NilUid, s, steps[0], bound);
    StepKeepsRegistry(env, NilUid, s1, steps[1], bound + 1);
    assert s2.db.apps[name].counters.revision == 0;
    StaleRowHidesUpdate(env, s2, steps[2], name, p, bound + 2);
  }

  lemma StaleRowHidesUpdate(env: Env, s: System, step: Step, name: string, p: string, bound: nat)
    requires R.Inv(env, s.db, bound) && bound + 1 < TWO_63 && name in s.db.apps
    requires step.Transaction? && step.op.UpdateApp? && Target(step.op) == name
    requires Emits(env, NilUid, s.db, step.op, step.events)
    requires var o := R.Exec(env, s.db, step.op); o.Changed? && p in o.paths
    requires var k := PartKey(name, p);
      && k in s.outbox.rows && s.outbox.rows[k].uid == NIL
      && s.outbox.rows[k].revision > s.db.apps[name].counters.revision + 1
    ensures var s' := Apply(env, NilUid, s, step);
      && name in s'.db.apps && p in ChangedParts(s.db.apps[name], s'.db.apps[name])
      && !Notified(NilUid, s', name, p, s'.db.apps[name].counters.revision)
  {
    var o := R.Exec(env, s.db, step.op);
    UpdateChangesPart(env, s.db, step.op, p, bound);
    OpChangesParts(env, s.db, step.op, name, bound);
    var ev0 := O.Application(env.instance, name, NIL, p, o.revision);
    assert ev0 in step.events;
    BatchWritesRow(s.outbox, step.events, step.now, O.EntryOf(ev0));
  }
}
