/** The whole change pipeline: management transactions that write records and outbox rows together,
    interleaved with everything that Kafka, the resender and the consumer may do. */
module Pipeline {
  import opened Common
  import opened Diff
  import opened Generation
  import opened Registry
  import opened RegistryRuns
  import O = Outbox
  import W = OutboxRuns

  datatype System = System(db: Db, outbox: W.State)

  const START := System(EMPTY, W.INITIAL)

  /** Which uid the events of an update carry. Updates of applications take it from the converted
      entity, where it is nil; updates of devices take it from the stored record. */
  datatype UidPolicy = NilUid | RecordUid

  datatype Step =
    | Transaction(op: Op, events: seq<O.Event>, now: int)
    | Wire(step: W.Step)

  function Target(op: Op): string {
    match op
    case CreateApp(_, app, _, _) => app.name
    case UpdateApp(_, app, _) => app.name
    case DeleteApp(_, name, _, _, _, _, _) => name
    case CleanApp(name, _, _) => name
  }

  function EventUid(policy: UidPolicy, db: Db, op: Op): Uuid {
    match op
    case CreateApp(_, _, uid, _) => uid
    case _ => if Target(op) !in db.apps || (op.UpdateApp? && policy.NilUid?) then NIL else db.apps[Target(op)].uid
  }

  /** These are events that the operation sends to the outbox, in some order. The events of a
      clean-up are dropped, and an update that removes a record sends none. */
  ghost predicate Emits(env: Env, policy: UidPolicy, db: Db, op: Op, events: seq<O.Event>) {
    var uid := EventUid(policy, db, op);
    match Exec(env, db, op)
    case Changed(_, revision, paths) =>
      if op.CleanApp? then events == [] else AreEvents(events, env, Target(op), uid, revision, paths)
    case Removed(_) =>
      if op.DeleteApp?
      then AreEvents(events, env, op.name, uid, Increment(db.apps[op.name].counters.revision), {"."})
      else events == []
    case _ => events == []
  }

  function CommitAll(s: W.State, events: seq<O.Event>, now: int): W.State {
    if events == [] then s
    else
      var n := |events| - 1;
      W.Apply(CommitAll(s, events[..n], now), W.Commit(O.EntryOf(events[n]), now))
  }

  /** As in the outbox alone, a step that is not possible changes nothing. */
  ghost function Apply(env: Env, policy: UidPolicy, s: System, step: Step): System {
    match step
    case Transaction(op, events, now) =>
      if Emits(env, policy, s.db, op, events)
      then System(After(s.db, Exec(env, s.db, op)), CommitAll(s.outbox, events, now))
      else s
    case Wire(w) => if w.Commit? then s else s.(outbox := W.Apply(s.outbox, w))
  }

  ghost function Run(env: Env, policy: UidPolicy, s: System, steps: seq<Step>): System {
    if steps == [] then s
    else Apply(env, policy, Run(env, policy, s, steps[..|steps| - 1]), steps[|steps| - 1])
  }

  /** What two states of a record differ in. The deletion mark counts as metadata. */
  function ChangedParts(a: App, b: App): set<string> {
    ChangedPaths(a.content, b.content) + if a.deletion != b.deletion then {METADATA} else {}
  }

  /** A change of a part of a record: the revision it led to, and whether a clean-up made it. */
  datatype Last = Last(revision: u64, byCleanUp: bool)

  predicate IsCleanUp(step: Step) {
    step.Transaction? && step.op.CleanApp?
  }

  /** The last change of a part of a record during a run, judged by the stored records alone. */
  ghost function LastChange(env: Env, policy: UidPolicy, s: System, steps: seq<Step>, name: string, p: string)
    : Option<Last>
    requires Lives(env, policy, s, steps, name)
  {
    if steps == [] then None
    else
      var n := |steps| - 1;
      LivesBefore(env, policy, s, steps, name);
      var before := Run(env, policy, s, steps[..n]).db.apps[name];
      var after := Run(env, policy, s, steps).db.apps[name];
      if p in ChangedParts(before, after) then Some(Last(after.counters.revision, IsCleanUp(steps[n])))
      else LastChange(env, policy, s, steps[..n], name, p)
  }

  /** The record is there throughout the run: one incarnation. */
  ghost predicate Lives(env: Env, policy: UidPolicy, s: System, steps: seq<Step>, name: string) {
    if steps == [] then name in s.db.apps
    else Lives(env, policy, s, steps[..|steps| - 1], name) && name in Run(env, policy, s, steps).db.apps
  }

  lemma LivesBefore(env: Env, policy: UidPolicy, s: System, steps: seq<Step>, name: string)
    requires Lives(env, policy, s, steps, name) && steps != []
    ensures Lives(env, policy, s, steps[..|steps| - 1], name)
    ensures name in Run(env, policy, s, steps[..|steps| - 1]).db.apps && name in Run(env, policy, s, steps).db.apps
  {
    var before := steps[..|steps| - 1];
    assert before == [] ==> Run(env, policy, s, before) == s;
  }

  // ----- one transaction -----

  /** What an operation does to a record that survives it: either nothing, or one revision with
      exactly the changed parts. */
  lemma OpChangesParts(env: Env, db: Db, op: Op, name: string, bound: nat)
    requires RegistryRuns.Inv(env, db, bound) && bound < TWO_63
    requires name in db.apps && name in After(db, Exec(env, db, op)).apps
    ensures var o := Exec(env, db, op); var before := db.apps[name]; var after := After(db, o).apps[name];
      if o.Changed? && Target(op) == name
      then after.uid == before.uid && o.revision == after.counters.revision == before.counters.revision + 1
        && ChangedParts(before, after) == o.paths && (op.CleanApp? ==> o.paths <= {METADATA})
      else after == before && ChangedParts(before, after) == {}
  {
    assert RecordOk(name, db.apps[name], bound);
    match op
    case CreateApp(_, _, _, _) =>
    case UpdateApp(_, app, _) => UpdateChangesParts(env, db, UpdateOf(env, op), name, bound);
    case DeleteApp(_, _, _, _, _, _, _) => DeleteChangesParts(env, db, op, name);
    case CleanApp(n, devices, version) =>
      if CleanUp(db, n, devices, version).Some? {
        UpdateChangesParts(env, db, CleanUp(db, n, devices, version).value, name, bound);
        CleanUpPaths(db.apps[n].content, CleanUp(db, n, devices, version).value.app.content);
      }
  }

  /** A clean-up changes finalizers only, so metadata. */
  lemma CleanUpPaths(a: Content, b: Content)
    requires a.data == b.data
    ensures ChangedPaths(a, b) <= {METADATA}
  {
    assert ChangedCells(a.data, b.data) == {};
  }

  lemma UpdateChangesParts(env: Env, db: Db, u: Update, name: string, bound: nat)
    requires RegistryRuns.Inv(env, db, bound) && bound < TWO_63
    requires u.app.name in db.apps ==>
      var current := db.apps[u.app.name].counters;
      u.app.counters.revision <= current.revision && u.app.counters.generation <= current.generation
    requires name in db.apps && name in After(db, PerformUpdate(env, db, u)).apps
    ensures var o := PerformUpdate(env, db, u); var before := db.apps[name]; var after := After(db, o).apps[name];
      if o.Changed? && u.app.name == name
      then after.uid == before.uid && o.revision == after.counters.revision == before.counters.revision + 1
        && ChangedParts(before, after) == o.paths
      else after == before && ChangedParts(before, after) == {}
  {
    var o := PerformUpdate(env, db, u);
    if o.Changed? && u.app.name == name {
      var current := db.apps[name];
      assert RecordOk(name, current, bound);
      AdvancesByOne(u.app.counters, o.paths, current.counters);
      assert o.db.apps[name].content == u.app.content;
    }
    NothingChanged(db.apps[name]);
  }

  lemma DeleteChangesParts(env: Env, db: Db, op: Op, name: string)
    requires op.DeleteApp? && name in db.apps && name in After(db, Delete(env, db, op)).apps
    ensures var o := Delete(env, db, op); var before := db.apps[name]; var after := After(db, o).apps[name];
      if o.Changed? && op.name == name
      then after.uid == before.uid && o.revision == after.counters.revision == before.counters.revision + 1
        && ChangedParts(before, after) == o.paths
      else after == before && ChangedParts(before, after) == {}
  {
    NothingChanged(db.apps[name]);
    var o := Delete(env, db, op);
    if o.Changed? && op.name == name {
      assert ChangedCells(db.apps[name].content.data, o.db.apps[name].content.data) == {};
    }
  }

  lemma NothingChanged(a: App)
    ensures ChangedParts(a, a) == {}
  {
    assert ChangedCells(a.content.data, a.content.data) == {};
  }

  // ----- the outbox under a batch of commits -----

  ghost predicate Mentions(events: seq<O.Event>, k: O.Key) {
    exists ev :: ev in events && O.KeyOf(O.EntryOf(ev)) == k
  }

  lemma MentionsNext(events: seq<O.Event>, k: O.Key)
    requires events != []
    ensures var n := |events| - 1;
      Mentions(events, k) <==> Mentions(events[..n], k) || O.KeyOf(O.EntryOf(events[n])) == k
  {
    var n := |events| - 1;
    if Mentions(events[..n], k) {
      var ev :| ev in events[..n] && O.KeyOf(O.EntryOf(ev)) == k;
      assert ev in events;
    }
    if Mentions(events, k) && O.KeyOf(O.EntryOf(events[n])) != k {
      var ev :| ev in events && O.KeyOf(O.EntryOf(ev)) == k;
      assert ev in events[..n];
    }
  }

  /** The entry is at least as new as all of its uid. */
  ghost predicate Newest(created: seq<O.Entry>, e: O.Entry) {
    && e.revision < TWO_63
    && forall i :: 0 <= i < |created| && O.KeyOf(created[i]) == O.KeyOf(e) && created[i].uid == e.uid ==>
         created[i].revision <= e.revision
  }

  /** One further commit. */
  lemma CommitKeeps(s: W.State, e: O.Entry, now: int, k: O.Key)
    requires W.Inv(s, k) && W.MonotonePerUid(s.created, k)
    requires O.KeyOf(e) == k ==> Newest(s.created, e)
    ensures var s' := W.Apply(s, W.Commit(e, now));
      && W.Inv(s', k) && W.MonotonePerUid(s'.created, k)
      && W.LastCreate(s'.created, k) == (if O.KeyOf(e) == k then Some(e) else W.LastCreate(s.created, k))
  {
    var s' := W.Apply(s, W.Commit(e, now));
    var n := |s.created|;
    assert s'.created[..n] == s.created && s'.created[n] == e;
    forall i, j | 0 <= i < j < |s'.created| && O.KeyOf(s'.created[i]) == O.KeyOf(s'.created[j]) == k
      ensures s'.created[i].uid == s'.created[j].uid ==> s'.created[i].revision <= s'.created[j].revision
    {
      assert s'.created[i] == s.created[i];
      assert j < n ==> s'.created[j] == s.created[j];
    }
    W.StepKeepsInv(s, W.Commit(e, now), k);
  }

  /** A batch that brings a newest entry for a key makes it the last one created. */
  lemma {:induction false} BatchKeeps(s: W.State, events: seq<O.Event>, now: int, k: O.Key, entry: O.Entry)
    requires W.Inv(s, k) && W.MonotonePerUid(s.created, k)
    requires O.KeyOf(entry) == k && Newest(s.created, entry)
    requires forall ev :: ev in events && O.KeyOf(O.EntryOf(ev)) == k ==> O.EntryOf(ev) == entry
    ensures var s' := CommitAll(s, events, now);
      && W.Inv(s', k) && W.MonotonePerUid(s'.created, k) && Newest(s'.created, entry)
      && W.LastCreate(s'.created, k) == if Mentions(events, k) then Some(entry) else W.LastCreate(s.created, k)
  {
    if events != [] {
      var n := |events| - 1;
      var rest := events[..n];
      BatchKeeps(s, rest, now, k, entry);
      var e := O.EntryOf(events[n]);
      assert events[n] in events;
      CommitKeeps(CommitAll(s, rest, now), e, now, k);
      StaysNewest(CommitAll(s, rest, now).created, e, entry);
      MentionsNext(events, k);
    }
  }

  lemma StaysNewest(created: seq<O.Entry>, e: O.Entry, entry: O.Entry)
    requires Newest(created, entry) && (O.KeyOf(e) == O.KeyOf(entry) ==> e == entry)
    ensures Newest(created + [e], entry)
  {
  }

  lemma {:induction false} BatchCreates(s: W.State, events: seq<O.Event>, now: int, e: O.Entry)
    ensures e in CommitAll(s, events, now).created <==> e in s.created || exists ev :: ev in events && O.EntryOf(ev) == e
  {
    if events != [] {
      var n := |events| - 1;
      BatchCreates(s, events[..n], now, e);
      if ev :| ev in events && O.EntryOf(ev) == e {
        assert ev == events[n] || ev in events[..n];
      }
    }
  }

  // ----- one incarnation -----

  /** The key of a part of an application. */
  function PartKey(name: string, p: string): O.Key {
    O.Key(name, "", p)
  }

  /** The uids that events of this record carry. */
  function Uids(policy: UidPolicy, app: App): set<Uuid> {
    if policy.NilUid? then {NIL, app.uid} else {app.uid}
  }

  /** At the start of an incarnation nothing of an earlier one bears its uids. */
  ghost predicate CleanStart(policy: UidPolicy, s: System, name: string, p: string)
    requires name in s.db.apps
  {
    forall e :: e in s.outbox.created && O.KeyOf(e) == PartKey(name, p) ==> e.uid !in Uids(policy, s.db.apps[name])
  }

  /** Every entry of this incarnation is within the bound. */
  ghost predicate Within(policy: UidPolicy, s: System, name: string, p: string, bound: int)
    requires name in s.db.apps
  {
    forall e :: e in s.outbox.created && O.KeyOf(e) == PartKey(name, p) && e.uid in Uids(policy, s.db.apps[name]) ==>
      e.revision <= bound
  }

  /** What holds in every state of an incarnation, where `last` is the last change of the part. */
  ghost predicate Track(policy: UidPolicy, s: System, name: string, p: string, last: Option<Last>) {
    var k := PartKey(name, p);
    && name in s.db.apps
    && W.Inv(s.outbox, k) && W.MonotonePerUid(s.outbox.created, k)
    && Within(policy, s, name, p, s.db.apps[name].counters.revision)
    && (last.Some? && !last.value.byCleanUp ==>
          var c := W.LastCreate(s.outbox.created, k);
          c.Some? && c.value.revision == last.value.revision && c.value.uid in Uids(policy, s.db.apps[name]))
    && (last.Some? && last.value.byCleanUp ==> p == METADATA && Within(policy, s, name, p, last.value.revision - 1))
  }

  /** A transaction that writes an entry for the part. */
  lemma AnnouncedChange(env: Env, policy: UidPolicy, s: System, op: Op, events: seq<O.Event>, now: int,
                        name: string, p: string, last: Option<Last>, bound: nat)
    requires Track(policy, s, name, p, last)
    requires RegistryRuns.Inv(env, s.db, bound) && bound + 1 < TWO_63
    requires Emits(env, policy, s.db, op, events)
    requires name in After(s.db, Exec(env, s.db, op)).apps
    requires var o := Exec(env, s.db, op); o.Changed? && Target(op) == name && !op.CleanApp? && p in o.paths
    ensures var s' := Apply(env, policy, s, Transaction(op, events, now));
      Track(policy, s', name, p, Some(Last(s'.db.apps[name].counters.revision, false)))
  {
    var k := PartKey(name, p);
    var o := Exec(env, s.db, op);
    var s' := Apply(env, policy, s, Transaction(op, events, now));
    OpChangesParts(env, s.db, op, name, bound);
    assert RecordOk(name, s.db.apps[name], bound);
    var uid := EventUid(policy, s.db, op);
    var ev0 := O.Application(env.instance, name, uid, p, o.revision);
    var entry := O.EntryOf(ev0);
    assert ev0 in events && O.KeyOf(O.EntryOf(ev0)) == k;
    forall i | 0 <= i < |s.outbox.created| && O.KeyOf(s.outbox.created[i]) == k && s.outbox.created[i].uid == uid
      ensures s.outbox.created[i].revision <= entry.revision
    {
      assert s.outbox.created[i] in s.outbox.created;
    }
    BatchKeeps(s.outbox, events, now, k, entry);
    AnnouncedIsWithin(env, policy, s, op, events, now, name, p, bound);
  }

  lemma AnnouncedIsWithin(env: Env, policy: UidPolicy, s: System, op: Op, events: seq<O.Event>, now: int,
                          name: string, p: string, bound: nat)
    requires name in s.db.apps && Within(policy, s, name, p, s.db.apps[name].counters.revision)
    requires RegistryRuns.Inv(env, s.db, bound) && bound + 1 < TWO_63
    requires Emits(env, policy, s.db, op, events)
    requires name in After(s.db, Exec(env, s.db, op)).apps
    requires var o := Exec(env, s.db, op); o.Changed? && Target(op) == name && !op.CleanApp?
    ensures var s' := Apply(env, policy, s, Transaction(op, events, now));
      Within(policy, s', name, p, s'.db.apps[name].counters.revision)
  {
    var s' := Apply(env, policy, s, Transaction(op, events, now));
    OpChangesParts(env, s.db, op, name, bound);
    forall e | e in s'.outbox.created && O.KeyOf(e) == PartKey(name, p) && e.uid in Uids(policy, s'.db.apps[name])
      ensures e.revision <= s'.db.apps[name].counters.revision
    {
      BatchCreates(s.outbox, events, now, e);
    }
  }

  /** A transaction that writes none: the part does not change, or a clean-up changes it. */
  lemma UnannouncedChange(env: Env, policy: UidPolicy, s: System, op: Op, events: seq<O.Event>, now: int,
                          name: string, p: string, last: Option<Last>, bound: nat)
    requires Track(policy, s, name, p, last) && p != "."
    requires RegistryRuns.Inv(env, s.db, bound) && bound + 1 < TWO_63
    requires Emits(env, policy, s.db, op, events)
    requires name in After(s.db, Exec(env, s.db, op)).apps
    requires var o := Exec(env, s.db, op); !(o.Changed? && Target(op) == name && !op.CleanApp? && p in o.paths)
    ensures var s' := Apply(env, policy, s, Transaction(op, events, now));
      var changed := p in ChangedParts(s.db.apps[name], s'.db.apps[name]);
      && (changed ==> op.CleanApp?)
      && Track(policy, s', name, p, if changed then Some(Last(s'.db.apps[name].counters.revision, true)) else last)
  {
    var k := PartKey(name, p);
    var s' := Apply(env, policy, s, Transaction(op, events, now));
    OpChangesParts(env, s.db, op, name, bound);
    assert RecordOk(name, s.db.apps[name], bound);
    NoEventForPart(env, policy, s.db, op, events, name, p);
    BatchKeeps(s.outbox, events, now, k, O.Entry("", name, None, p, TWO_63 - 1, ""));
    forall e | e in s'.outbox.created && O.KeyOf(e) == k ensures e in s.outbox.created {
      BatchCreates(s.outbox, events, now, e);
    }
  }

  lemma NoEventForPart(env: Env, policy: UidPolicy, db: Db, op: Op, events: seq<O.Event>, name: string, p: string)
    requires Emits(env, policy, db, op, events) && p != "."
    requires var o := Exec(env, db, op); !(o.Changed? && Target(op) == name && !op.CleanApp? && p in o.paths)
    ensures forall ev :: ev in events ==> O.KeyOf(O.EntryOf(ev)) != PartKey(name, p)
  {
  }

  lemma StepKeepsRegistry(env: Env, policy: UidPolicy, s: System, step: Step, bound: nat)
    requires RegistryRuns.Inv(env, s.db, bound)
    ensures RegistryRuns.Inv(env, Apply(env, policy, s, step).db, bound + 1)
  {
    if step.Transaction? {
      OpKeepsInv(env, s.db, step.op, bound);
    }
  }

  lemma StepKeepsTrack(env: Env, policy: UidPolicy, s: System, step: Step, name: string, p: string,
                       last: Option<Last>, bound: nat)
    requires Track(policy, s, name, p, last) && p != "."
    requires RegistryRuns.Inv(env, s.db, bound) && bound + 1 < TWO_63
    requires name in Apply(env, policy, s, step).db.apps
    ensures var s' := Apply(env, policy, s, step);
      var changed := p in ChangedParts(s.db.apps[name], s'.db.apps[name]);
      Track(policy, s', name, p, if changed then Some(Last(s'.db.apps[name].counters.revision, IsCleanUp(step))) else last)
  {
    NothingChanged(s.db.apps[name]);
    match step
    case Transaction(op, events, now) =>
      if Emits(env, policy, s.db, op, events) {
        var o := Exec(env, s.db, op);
        if o.Changed? && Target(op) == name && !op.CleanApp? && p in o.paths {
          OpChangesParts(env, s.db, op, name, bound);
          AnnouncedChange(env, policy, s, op, events, now, name, p, last, bound);
        } else {
          UnannouncedChange(env, policy, s, op, events, now, name, p, last, bound);
        }
      }
    case Wire(w) =>
      if !w.Commit? {
        W.StepKeepsInv(s.outbox, w, PartKey(name, p));
      }
  }

  lemma {:induction false} RunTracks(env: Env, policy: UidPolicy, s: System, steps: seq<Step>, name: string, p: string,
                                     bound: nat)
    requires Lives(env, policy, s, steps, name) && p != "."
    requires RegistryRuns.Inv(env, s.db, bound) && bound + |steps| < TWO_63
    requires name in s.db.apps && CleanStart(policy, s, name, p)
    requires W.Inv(s.outbox, PartKey(name, p)) && W.MonotonePerUid(s.outbox.created, PartKey(name, p))
    ensures RegistryRuns.Inv(env, Run(env, policy, s, steps).db, bound + |steps|)
    ensures Track(policy, Run(env, policy, s, steps), name, p, LastChange(env, policy, s, steps, name, p))
  {
    if steps != [] {
      var n := |steps| - 1;
      LivesBefore(env, policy, s, steps, name);
      RunTracks(env, policy, s, steps[..n], name, p, bound);
      var before := Run(env, policy, s, steps[..n]);
      StepKeepsRegistry(env, policy, before, steps[n], bound + n);
      StepKeepsTrack(env, policy, before, steps[n], name, p, LastChange(env, policy, s, steps[..n], name, p), bound + n);
    }
  }

  /** The outbox row of the key is this change or, if there is none, the change came back from Kafka. */
  ghost predicate Carried(o: W.State, c: O.Change) {
    if c.key in o.rows then O.ChangeOfRow(c.key, o.rows[c.key]) == c else c in o.seen
  }

  /** The change that led to a revision of this very record is carried by the outbox. */
  ghost predicate Notified(policy: UidPolicy, s: System, name: string, p: string, revision: u64)
    requires name in s.db.apps
  {
    exists uid :: uid in Uids(policy, s.db.apps[name]) && Carried(s.outbox, O.Change(PartKey(name, p), uid, revision))
  }

  /** In a tracked state, a change is notified exactly if no clean-up made it. */
  lemma TrackNotifies(policy: UidPolicy, s: System, name: string, p: string, last: Last)
    requires Track(policy, s, name, p, Some(last))
    ensures Notified(policy, s, name, p, last.revision) <==> !last.byCleanUp
  {
    var k := PartKey(name, p);
    W.LastCreateIsCreated(s.outbox.created, k);
    if !last.byCleanUp {
      var e := W.LastCreate(s.outbox.created, k).value;
      assert Carried(s.outbox, O.Change(k, e.uid, last.revision));
    } else if Notified(policy, s, name, p, last.revision) {
      var uid :| uid in Uids(policy, s.db.apps[name]) && Carried(s.outbox, O.Change(k, uid, last.revision));
      CarriedIsCreated(s.outbox, O.Change(k, uid, last.revision));
    }
  }

  lemma CarriedIsCreated(o: W.State, c: O.Change)
    requires W.Inv(o, c.key) && Carried(o, c)
    ensures exists e :: e in o.created && O.ChangeOf(e) == c
  {
    W.LastCreateIsCreated(o.created, c.key);
    if c.key in o.rows {
      assert W.LastCreate(o.created, c.key).value in o.created;
    } else {
      var i :| 0 <= i < |o.created| && O.ChangeOf(o.created[i]) == c;
      assert o.created[i] in o.created;
    }
  }

  /** The main theorem for one incarnation: over every run of transactions, publishes, resends and
      deliveries, the last change of each part of the record is in its outbox row, or the row is gone and
      the change was passed to `mark_seen`. The one exception, and it always is one, is a change of the
      metadata by a clean-up. */
  lemma {:induction false} EveryChangeIsNotified(env: Env, policy: UidPolicy, s: System, steps: seq<Step>, name: string,
                                                 p: string, bound: nat)
    requires Lives(env, policy, s, steps, name) && p != "."
    requires RegistryRuns.Inv(env, s.db, bound) && bound + |steps| < TWO_63
    requires name in s.db.apps && CleanStart(policy, s, name, p)
    requires W.Inv(s.outbox, PartKey(name, p)) && W.MonotonePerUid(s.outbox.created, PartKey(name, p))
    ensures name in Run(env, policy, s, steps).db.apps
    ensures var last := LastChange(env, policy, s, steps, name, p);
      last.Some? ==>
        && (Notified(policy, Run(env, policy, s, steps), name, p, last.value.revision) <==> !last.value.byCleanUp)
        && (last.value.byCleanUp ==> p == METADATA)
  {
    RunTracks(env, policy, s, steps, name, p, bound);
    var last := LastChange(env, policy, s, steps, name, p);
    if last.Some? {
      TrackNotifies(policy, Run(env, policy, s, steps), name, p, last.value);
    }
  }

  // ----- all incarnations -----

  /** No entry for the key bears the nil uid. */
  ghost predicate NoNil(s: System, k: O.Key) {
    forall e :: e in s.outbox.created && O.KeyOf(e) == k ==> e.uid != NIL
  }

  /** What holds of one key in every state of the whole system, as long as its entries have real uids. */
  ghost predicate Global(env: Env, s: System, bound: nat, used: set<Uuid>, k: O.Key) {
    && RegistryRuns.Inv(env, s.db, bound)
    && W.Inv(s.outbox, k) && W.MonotonePerUid(s.outbox.created, k)
    && (forall e :: e in s.outbox.created && O.KeyOf(e) == k ==> e.uid in used)
    && (forall n :: n in s.db.apps ==> s.db.apps[n].uid in used)
    && (forall e :: e in s.outbox.created && O.KeyOf(e) == k && k.app in s.db.apps && e.uid == s.db.apps[k.app].uid ==>
          e.revision <= s.db.apps[k.app].counters.revision)
  }

  /** The uids given out by the creations of a run. */
  function UidsOf(steps: seq<Step>): set<Uuid> {
    if steps == [] then {}
    else
      var n := |steps| - 1;
      UidsOf(steps[..n]) + match steps[n] {
        case Transaction(CreateApp(_, _, uid, _), _, _) => {uid}
        case _ => {}
      }
  }

  /** Every creation brings a new uid, and never the nil one. */
  predicate FreshUids(steps: seq<Step>) {
    steps == [] ||
    var n := |steps| - 1;
    && FreshUids(steps[..n])
    && match steps[n] {
         case Transaction(CreateApp(_, _, uid, _), _, _) => uid !in UidsOf(steps[..n]) && uid != NIL
         case _ => true
       }
  }

  /** All events of an operation bear one uid and one revision. If the uid is not nil, it is that of the record
      or, for a creation, new; and the revision is the next one. */
  lemma EmittedEntries(env: Env, policy: UidPolicy, s: System, op: Op, events: seq<O.Event>, bound: nat, ev: O.Event)
    requires RegistryRuns.Inv(env, s.db, bound) && bound + 1 < TWO_63
    requires Emits(env, policy, s.db, op, events) && ev in events && O.EntryOf(ev).uid != NIL
    ensures var e := O.EntryOf(ev); var after := After(s.db, Exec(env, s.db, op));
      && e == O.Entry(env.instance, Target(op), None, ev.path, e.revision, EventUid(policy, s.db, op))
      && e.revision < TWO_63
      && (Target(op) in s.db.apps ==> !op.CreateApp? && e.uid == s.db.apps[Target(op)].uid)
      && (Target(op) in s.db.apps ==> e.revision == s.db.apps[Target(op)].counters.revision + 1)
      && (Target(op) !in s.db.apps ==> op.CreateApp? && e.uid == op.uid && e.revision == 0)
      && (Target(op) in after.apps ==> after.apps[Target(op)].uid == e.uid)
      && (Target(op) in after.apps ==> after.apps[Target(op)].counters.revision == e.revision)
  {
    var name := Target(op);
    if name in s.db.apps {
      assert RecordOk(name, s.db.apps[name], bound);
      if name in After(s.db, Exec(env, s.db, op)).apps {
        OpChangesParts(env, s.db, op, name, bound);
      }
    }
  }

  lemma RecordAfter(env: Env, db: Db, op: Op, n: string, bound: nat)
    requires RegistryRuns.Inv(env, db, bound) && bound < TWO_63
    requires n in After(db, Exec(env, db, op)).apps
    ensures var after := After(db, Exec(env, db, op)).apps[n];
      if n in db.apps
      then after.uid == db.apps[n].uid && db.apps[n].counters.revision <= after.counters.revision
      else op.CreateApp? && after.uid == op.uid
  {
    if n in db.apps {
      OpChangesParts(env, db, op, n, bound);
    }
  }

  function GivenUid(op: Op): set<Uuid> {
    if op.CreateApp? then {op.uid} else {}
  }

  lemma TransactionKeepsGlobal(env: Env, policy: UidPolicy, s: System, op: Op, events: seq<O.Event>, now: int,
                               bound: nat, used: set<Uuid>, k: O.Key)
    requires Global(env, s, bound, used, k) && bound + 1 < TWO_63
    requires Emits(env, policy, s.db, op, events) && GivenUid(op) !! used
    requires NoNil(Apply(env, policy, s, Transaction(op, events, now)), k)
    ensures Global(env, Apply(env, policy, s, Transaction(op, events, now)), bound + 1, used + GivenUid(op), k)
  {
    var s' := Apply(env, policy, s, Transaction(op, events, now));
    OpKeepsInv(env, s.db, op, bound);
    TransactionKeepsKey(env, policy, s, op, events, now, bound, used, k);
    forall n | n in s'.db.apps ensures s'.db.apps[n].uid in used + GivenUid(op) {
      RecordAfter(env, s.db, op, n, bound);
    }
    forall e | e in s'.outbox.created && O.KeyOf(e) == k
      ensures e.uid in used + GivenUid(op)
      ensures k.app in s'.db.apps && e.uid == s'.db.apps[k.app].uid ==> e.revision <= s'.db.apps[k.app].counters.revision
    {
      BatchCreates(s.outbox, events, now, e);
      if ev :| ev in events && O.EntryOf(ev) == e {
        EmittedEntries(env, policy, s, op, events, bound, ev);
      } else if k.app in s'.db.apps {
        RecordAfter(env, s.db, op, k.app, bound);
      }
    }
  }

  lemma TransactionKeepsKey(env: Env, policy: UidPolicy, s: System, op: Op, events: seq<O.Event>, now: int,
                            bound: nat, used: set<Uuid>, k: O.Key)
    requires Global(env, s, bound, used, k) && bound + 1 < TWO_63
    requires Emits(env, policy, s.db, op, events) && GivenUid(op) !! used
    requires NoNil(Apply(env, policy, s, Transaction(op, events, now)), k)
    ensures var s' := CommitAll(s.outbox, events, now);
      W.Inv(s', k) && W.MonotonePerUid(s'.created, k)
  {
    if Mentions(events, k) {
      var ev0 :| ev0 in events && O.KeyOf(O.EntryOf(ev0)) == k;
      var entry := O.EntryOf(ev0);
      BatchCreates(s.outbox, events, now, entry);
      EmittedEntries(env, policy, s, op, events, bound, ev0);
      forall ev | ev in events && O.KeyOf(O.EntryOf(ev)) == k
        ensures O.EntryOf(ev) == entry
      {
        BatchCreates(s.outbox, events, now, O.EntryOf(ev));
        EmittedEntries(env, policy, s, op, events, bound, ev);
      }
      forall i | 0 <= i < |s.outbox.created| && O.KeyOf(s.outbox.created[i]) == k && s.outbox.created[i].uid == entry.uid
        ensures s.outbox.created[i].revision <= entry.revision
      {
        assert s.outbox.created[i] in s.outbox.created;
      }
      BatchKeeps(s.outbox, events, now, k, entry);
    } else {
      BatchKeeps(s.outbox, events, now, k, O.Entry("", k.app, Some(k.device), k.path, TWO_63 - 1, ""));
    }
  }

  lemma GlobalIsMonotone(env: Env, s: System, bound: nat, used: set<Uuid>, k: O.Key)
    requires Global(env, s, bound, used, k)
    ensures Global(env, s, bound + 1, used, k)
  {
    forall n | n in s.db.apps ensures RecordOk(n, s.db.apps[n], bound + 1) {
      assert RecordOk(n, s.db.apps[n], bound);
    }
  }

  function GivenUids(step: Step): set<Uuid> {
    if step.Transaction? then GivenUid(step.op) else {}
  }

  lemma StepKeepsGlobal(env: Env, policy: UidPolicy, s: System, step: Step, bound: nat, used: set<Uuid>, k: O.Key)
    requires Global(env, s, bound, used, k) && bound + 1 < TWO_63
    requires GivenUids(step) !! used && NoNil(Apply(env, policy, s, step), k)
    ensures Global(env, Apply(env, policy, s, step), bound + 1, used + GivenUids(step), k)
  {
    match step
    case Transaction(op, events, now) =>
      if Emits(env, policy, s.db, op, events) {
        TransactionKeepsGlobal(env, policy, s, op, events, now, bound, used, k);
      } else {
        GlobalIsMonotone(env, s, bound, used, k);
      }
    case Wire(w) =>
      if !w.Commit? {
        W.StepKeepsInv(s.outbox, w, k);
      }
      GlobalIsMonotone(env, Apply(env, policy, s, step), bound, used, k);
  }

  lemma CreatedStays(env: Env, policy: UidPolicy, s: System, step: Step, e: O.Entry)
    requires e in s.outbox.created
    ensures e in Apply(env, policy, s, step).outbox.created
  {
    if step.Transaction? {
      BatchCreates(s.outbox, step.events, step.now, e);
    }
  }

  /** Under either policy, in every run of the whole system: a key whose entries never had the nil uid is in order. */
  lemma {:induction false} RunKeepsGlobal(env: Env, policy: UidPolicy, steps: seq<Step>, k: O.Key)
    requires FreshUids(steps) && |steps| + 1 < TWO_63 && NoNil(Run(env, policy, START, steps), k)
    ensures Global(env, Run(env, policy, START, steps), |steps|, UidsOf(steps), k)
  {
    if steps == [] {
    } else {
      var n := |steps| - 1;
      var s := Run(env, policy, START, steps[..n]);
      forall e | e in s.outbox.created && O.KeyOf(e) == k ensures e.uid != NIL {
        CreatedStays(env, policy, s, steps[n], e);
      }
      RunKeepsGlobal(env, policy, steps[..n], k);
      StepKeepsGlobal(env, policy, s, steps[n], n, UidsOf(steps[..n]), k);
      assert UidsOf(steps[..n]) + GivenUids(steps[n]) == UidsOf(steps);
    }
  }

  ghost predicate IsCreation(env: Env, policy: UidPolicy, s: System, step: Step, name: string) {
    && step.Transaction? && step.op.CreateApp? && step.op.app.name == name
    && name !in s.db.apps && name in Apply(env, policy, s, step).db.apps
  }

  /** A creation writes no entry for a part. */
  lemma CreationWritesNoPart(env: Env, policy: UidPolicy, s: System, creation: Step, name: string, p: string, e: O.Entry)
    requires IsCreation(env, policy, s, creation, name) && p != "." && O.KeyOf(e) == PartKey(name, p)
    ensures e in Apply(env, policy, s, creation).outbox.created <==> e in s.outbox.created
    ensures Apply(env, policy, s, creation).db.apps[name].uid == creation.op.uid
  {
    assert forall ev :: ev in creation.events ==> ev.path == ".";
    BatchCreates(s.outbox, creation.events, creation.now, e);
  }

  /** The guarantee for any incarnation, in every run of the whole system, and whichever uid updates carry: from
      the creation of a record on, its changes are notified, if no entry for the part has borne the nil uid before. */
  lemma {:induction false} IncarnationIsNotified(env: Env, policy: UidPolicy, before: seq<Step>, creation: Step,
                                                 rest: seq<Step>, name: string, p: string)
    requires FreshUids(before + [creation]) && |before| + |rest| + 2 < TWO_63 && p != "."
    requires IsCreation(env, policy, Run(env, policy, START, before), creation, name)
    requires NoNil(Run(env, policy, START, before), PartKey(name, p))
    requires Lives(env, policy, Run(env, policy, START, before + [creation]), rest, name)
    ensures var s := Run(env, policy, START, before + [creation]);
      var last := LastChange(env, policy, s, rest, name, p); var s' := Run(env, policy, s, rest);
      && name in s'.db.apps
      && (last.Some? ==> (Notified(policy, s', name, p, last.value.revision) <==> !last.value.byCleanUp))
  {
    var all, k := before + [creation], PartKey(name, p);
    assert all[..|before|] == before;
    var s0 := Run(env, policy, START, before);
    var s := Run(env, policy, START, all);
    forall e | e in s.outbox.created && O.KeyOf(e) == k ensures e in s0.outbox.created {
      CreationWritesNoPart(env, policy, s0, creation, name, p, e);
    }
    CreationWritesNoPart(env, policy, s0, creation, name, p, O.Entry("", name, None, p, 0, ""));
    RunKeepsGlobal(env, policy, before, k);
    RunKeepsGlobal(env, policy, all, k);
    assert CleanStart(policy, s, name, p);
    EveryChangeIsNotified(env, policy, s, rest, name, p, |all|);
  }

  /** No entry for the key was ever written. */
  ghost predicate Untouched(s: System, k: O.Key) {
    forall e :: e in s.outbox.created ==> O.KeyOf(e) != k
  }

  lemma {:induction false} UntouchedIsInOrder(env: Env, policy: UidPolicy, steps: seq<Step>, k: O.Key)
    requires Untouched(Run(env, policy, START, steps), k)
    ensures var s := Run(env, policy, START, steps);
      RegistryRuns.Inv(env, s.db, |steps|) && W.Inv(s.outbox, k) && W.MonotonePerUid(s.outbox.created, k)
  {
    if steps != [] {
      var n := |steps| - 1;
      var s, step := Run(env, policy, START, steps[..n]), steps[n];
      forall e | e in s.outbox.created ensures O.KeyOf(e) != k {
        CreatedStays(env, policy, s, step, e);
      }
      UntouchedIsInOrder(env, policy, steps[..n], k);
      StepKeepsRegistry(env, policy, s, step, n);
      match step
      case Wire(w) =>
        if !w.Commit? {
          W.StepKeepsInv(s.outbox, w, k);
        }
      case Transaction(op, events, now) =>
        if Emits(env, policy, s.db, op, events) {
          forall ev | ev in events ensures O.KeyOf(O.EntryOf(ev)) != k {
            BatchCreates(s.outbox, events, now, O.EntryOf(ev));
          }
          BatchKeeps(s.outbox, events, now, k, O.Entry("", k.app, Some(k.device), k.path, 0, ""));
        }
    }
  }

  /** In particular the guarantee holds, and then without any assumption on uids, if no entry for the part was written
      before the record was created: so for the first application of its name, whatever else the system did before. */
  lemma {:induction false} FirstIncarnationIsNotified(env: Env, policy: UidPolicy, before: seq<Step>, creation: Step,
                                                      rest: seq<Step>, name: string, p: string)
    requires |before| + |rest| + 2 < TWO_63 && p != "."
    requires IsCreation(env, policy, Run(env, policy, START, before), creation, name)
    requires Untouched(Run(env, policy, START, before), PartKey(name, p))
    requires Lives(env, policy, Run(env, policy, START, before + [creation]), rest, name)
    ensures var s := Run(env, policy, START, before + [creation]);
      var last := LastChange(env, policy, s, rest, name, p); var s' := Run(env, policy, s, rest);
      && name in s'.db.apps
      && (last.Some? ==> (Notified(policy, s', name, p, last.value.revision) <==> !last.value.byCleanUp))
  {
    var all, k := before + [creation], PartKey(name, p);
    assert all[..|before|] == before;
    var s := Run(env, policy, START, all);
    forall e | e in s.outbox.created ensures O.KeyOf(e) != k {
      if O.KeyOf(e) == k {
        CreationWritesNoPart(env, policy, Run(env, policy, START, before), creation, name, p, e);
      }
    }
    UntouchedIsInOrder(env, policy, all, k);
    EveryChangeIsNotified(env, policy, s, rest, name, p, |all|);
  }

  /** All uids in the records and in the outbox are among these. */
  ghost predicate UidsWithin(s: System, used: set<Uuid>) {
    && (forall e :: e in s.outbox.created ==> e.uid in used)
    && (forall n :: n in s.db.apps ==> s.db.apps[n].uid in used)
  }

  lemma StepKeepsUids(env: Env, s: System, step: Step, used: set<Uuid>)
    requires UidsWithin(s, used)
    ensures UidsWithin(Apply(env, RecordUid, s, step), used + GivenUids(step))
  {
    if step.Transaction? && Emits(env, RecordUid, s.db, step.op, step.events) {
      var s' := Apply(env, RecordUid, s, step);
      forall e | e in s'.outbox.created ensures e.uid in used + GivenUids(step) {
        BatchCreates(s.outbox, step.events, step.now, e);
      }
      forall n | n in s'.db.apps ensures s'.db.apps[n].uid in used + GivenUids(step) {
        UidAfter(env, s.db, step.op, n);
      }
    }
  }

  /** With the uid of the record in every event no entry bears the nil uid. */
  lemma {:induction false} RecordUidsAreReal(env: Env, steps: seq<Step>)
    requires FreshUids(steps)
    ensures NIL !in UidsOf(steps) && UidsWithin(Run(env, RecordUid, START, steps), UidsOf(steps))
  {
    if steps != [] {
      var n := |steps| - 1;
      RecordUidsAreReal(env, steps[..n]);
      StepKeepsUids(env, Run(env, RecordUid, START, steps[..n]), steps[n], UidsOf(steps[..n]));
      assert UidsOf(steps[..n]) + GivenUids(steps[n]) == UidsOf(steps);
    }
  }

  lemma UidAfter(env: Env, db: Db, op: Op, n: string)
    requires n in After(db, Exec(env, db, op)).apps
    ensures var uid := After(db, Exec(env, db, op)).apps[n].uid;
      if op.CreateApp? && op.app.name == n && n !in db.apps then uid == op.uid else n in db.apps && uid == db.apps[n].uid
  {
  }

  /** So under that policy, which devices have, the guarantee spans deletion and re-creation without any condition. */
  lemma {:induction false} EveryIncarnationIsNotified(env: Env, before: seq<Step>, creation: Step, rest: seq<Step>,
                                                      name: string, p: string)
    requires FreshUids(before + [creation]) && |before| + |rest| + 2 < TWO_63 && p != "."
    requires IsCreation(env, RecordUid, Run(env, RecordUid, START, before), creation, name)
    requires Lives(env, RecordUid, Run(env, RecordUid, START, before + [creation]), rest, name)
    ensures var s := Run(env, RecordUid, START, before + [creation]);
      var last := LastChange(env, RecordUid, s, rest, name, p); var s' := Run(env, RecordUid, s, rest);
      && name in s'.db.apps
      && (last.Some? ==> (Notified(RecordUid, s', name, p, last.value.revision) <==> !last.value.byCleanUp))
  {
    assert (before + [creation])[..|before|] == before;
    RecordUidsAreReal(env, before);
    IncarnationIsNotified(env, RecordUid, before, creation, rest, name, p);
  }

  // ----- clean-ups -----

  /** The record is marked as deleted, has no devices, and has the finalizer for devices and another one. */
  predicate CleansSilently(app: App, devices: nat) {
    && app.deletion.Some? && devices == 0 && HAS_DEVICES in app.content.finalizers
    && exists f :: f in app.content.finalizers && f != HAS_DEVICES
  }

  /** When a clean-up changes a record silently: it never writes to the outbox, and the record survives, changed,
      exactly under that condition. Then its metadata changes, and nothing else. */
  lemma {:induction false} CleanUpIsSilent(env: Env, policy: UidPolicy, s: System, name: string, devices: nat,
                                           version: Uuid, now: int, bound: nat)
    requires RegistryRuns.Inv(env, s.db, bound) && bound < TWO_63 && name in s.db.apps
    ensures var app := s.db.apps[name];
      var s' := Apply(env, policy, s, Transaction(CleanApp(name, devices, version), [], now));
      && s'.outbox == s.outbox
      && (name in s'.db.apps && s'.db.apps[name] != app <==> CleansSilently(app, devices))
      && (CleansSilently(app, devices) ==>
            && s'.db.apps[name].counters.revision == app.counters.revision + 1
            && ChangedParts(app, s'.db.apps[name]) == {METADATA})
  {
    var op := CleanApp(name, devices, version);
    CleanUpChanges(env, s.db, name, devices, version, bound);
    if name in After(s.db, Exec(env, s.db, op)).apps {
      OpChangesParts(env, s.db, op, name, bound);
    }
  }

  lemma CleanUpChanges(env: Env, db: Db, name: string, devices: nat, version: Uuid, bound: nat)
    requires RegistryRuns.Inv(env, db, bound) && bound < TWO_63 && name in db.apps
    ensures var o := Exec(env, db, CleanApp(name, devices, version));
      && (o.Changed? <==> CleansSilently(db.apps[name], devices))
      && (o.Changed? ==> METADATA in o.paths && name in o.db.apps)
      && (o.Removed? ==> name !in o.db.apps)
  {
    var finalizers := db.apps[name].content.finalizers;
    var rest := HasDevicesRemoved(finalizers);
    HasDevicesGone(finalizers);
    if rest != [] {
      assert rest[0] in rest;
    }
    if db.apps[name].deletion.Some? && devices == 0 {
      CleanUpOutcome(env, db, name, version, bound);
    }
  }

  lemma CleanUpOutcome(env: Env, db: Db, name: string, version: Uuid, bound: nat)
    requires RegistryRuns.Inv(env, db, bound) && bound < TWO_63 && name in db.apps && db.apps[name].deletion.Some?
    ensures var rest := HasDevicesRemoved(db.apps[name].content.finalizers); var o := Exec(env, db, CleanApp(name, 0, version));
      if rest == [] then o.Removed? && name !in o.db.apps
      else if rest == db.apps[name].content.finalizers then o.Unchanged?
      else o.Changed? && METADATA in o.paths && name in o.db.apps
  {
    var app := db.apps[name];
    assert RecordOk(name, app, bound);
    var u := CleanUp(db, name, 0, version).value;
    VersionsAreChecked(env, "", "", app);
    AdvancesByOne(u.app.counters, ChangedPaths(app.content, u.app.content), app.counters);
    assert ChangedCells(app.content.data, u.app.content.data) == {};
  }

  // ----- the transaction of an update -----

  /** The outbox rows of a batch of commits are those that `create` leaves, one event after the other. */
  lemma {:induction false} CommitAllCreatesAll(s: W.State, events: seq<O.Event>, now: int)
    ensures CommitAll(s, events, now).rows == CreateAll(s.rows, events, now)
  {
    if events != [] {
      CommitAllCreatesAll(s, events[..|events| - 1], now);
    }
  }

  /** The code of an update is a transaction step of the system, with the events it sends and under the nil uid. From
      the records of a run it sends no event twice. */
  method UpdateIsTransaction(env: Env, store: Store, outbox: O.OutboxTable, op: Op, now: int, ghost s: System,
                             ghost bound: nat)
    returns (r: Result<seq<O.Event>, Error>)
    requires op.UpdateApp? && store.Value() == s.db && outbox.rows == s.outbox.rows
    modifies store, outbox
    ensures var events := if r.Ok? then r.value else [];
      var s' := Apply(env, NilUid, s, Transaction(op, events, now));
      Emits(env, NilUid, s.db, op, events) && store.Value() == s'.db && outbox.rows == s'.outbox.rows
    ensures r.Ok? && RegistryRuns.Inv(env, s.db, bound) ==> Distinct(r.value)
  {
    ghost var u := UpdateOf(env, op);
    if RegistryRuns.Inv(env, s.db, bound) && u.app.name in s.db.apps {
      assert RecordOk(u.app.name, s.db.apps[u.app.name], bound);
      EntityIsWellFormed(env, op.app);
      TwoSectionsDoNotCollide(s.db.apps[u.app.name], u.app);
    }
    r := store.UpdateApp(env, UpdateOf(env, op), outbox, now);
    CommitAllCreatesAll(s.outbox, if r.Ok? then r.value else [], now);
  }
}
