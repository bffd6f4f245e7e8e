/** Runs of management operations on the application registry: the alias index, the counters and
    optimistic locking. */
module RegistryRuns {
  import opened Common
  import opened Diff
  import opened Auth
  import opened Generation
  import opened Registry

  datatype Op =
    | CreateApp(creator: User, app: Submitted, uid: Uuid, freshVersion: Uuid)
    | UpdateApp(identity: User, app: Submitted, freshVersion: Uuid)
    | DeleteApp(identity: User, name: string, expectedUid: string, expectedVersion: string,
                devices: nat, now: int, freshVersion: Uuid)
    | CleanApp(name: string, devices: nat, freshVersion: Uuid)

  function Create(env: Env, db: Db, op: Op): Outcome
    requires op.CreateApp?
  {
    var (entity, aliases) := AppToEntity(env, op.app);
    var app := entity.(uid := op.uid, version := op.freshVersion, owner := UserId(op.creator));
    if app.name in db.apps || Clashes(db.aliases, aliases) then Rejected(Conflict)
    else Changed(Db(db.apps[app.name := app], db.aliases + RowsFor(app.name, aliases)), 0, {"."})
  }

  function UpdateOf(env: Env, op: Op): Update
    requires op.UpdateApp?
  {
    var (entity, aliases) := AppToEntity(env, op.app);
    Update(Some(op.identity), entity, Some(aliases), op.app.uid, op.app.version, op.freshVersion)
  }

  /** Deleting an application: at once, or, while it has finalizers, by marking it. */
  function Delete(env: Env, db: Db, op: Op): Outcome
    requires op.DeleteApp?
  {
    if op.name !in db.apps || db.apps[op.name].deletion.Some? then Rejected(NotFound)
    else
      var current := db.apps[op.name];
      if Authorize(current.owner, current.members, op.identity, AdminPermission).Deny? then Rejected(NotAuthorized)
      else
        var versions := CheckVersions(env, op.expectedUid, op.expectedVersion, current);
        if versions.Err? then Rejected(versions.error)
        else
          var finalizers := current.content.finalizers + if op.devices > 0 then [HAS_DEVICES] else [];
          var revision := Increment(current.counters.revision);
          if revision <= current.counters.revision
          then Rejected(NotAdvancing(NotIncrementing(current.counters.revision, revision)))
          else if finalizers == [] then Removed(Db(db.apps - {op.name}, WithoutApp(db.aliases, op.name)))
          else
            var record := current.(
              counters := current.counters.(revision := revision), version := op.freshVersion,
              deletion := Some(op.now), content := current.content.(finalizers := finalizers));
            Changed(Db(db.apps[op.name := record], db.aliases), revision, {METADATA})
  }

  function Exec(env: Env, db: Db, op: Op): Outcome {
    match op
    case CreateApp(_, _, _, _) => Create(env, db, op)
    case UpdateApp(_, _, _) => PerformUpdate(env, db, UpdateOf(env, op))
    case DeleteApp(_, _, _, _, _, _, _) => Delete(env, db, op)
    case CleanApp(name, devices, version) =>
      match CleanUp(db, name, devices, version)
      case None => Unchanged
      case Some(u) => PerformUpdate(env, db, u)
  }

  const EMPTY := Db(map[], {})

  function Run(env: Env, ops: seq<Op>): Db {
    if ops == [] then EMPTY
    else
      var db := Run(env, ops[..|ops| - 1]);
      After(db, Exec(env, db, ops[|ops| - 1]))
  }

  // ----- what every run keeps -----

  predicate TwoSections(data: Value) {
    forall s :: s in Fields(data) ==> s == "spec" || s == "status"
  }

  /** The two sections do not collide. */
  lemma TwoSectionsDoNotCollide(a: App, b: App)
    requires TwoSections(a.content.data) && TwoSections(b.content.data)
    ensures NoCollidingSections(a, b)
  {
    forall s, t | s in {"spec", "status"} && t in {"spec", "status"} ensures !Collide(s, t) {
      DotFreeIsEnough(s, t);
    }
  }

  /** The alias rows are exactly those that the stored applications must have. */
  ghost predicate AliasesAreExact(env: Env, db: Db) {
    && UniqueAliases(db.aliases)
    && (forall r :: r in db.aliases <==> IsDue(env, db, r))
  }

  ghost predicate IsDue(env: Env, db: Db, r: AliasRow) {
    r.app in db.apps && TypedAlias(r.kind, r.alias) in AliasesOf(env, r.app, db.apps[r.app].content.data)
  }

  ghost predicate RecordOk(name: string, app: App, bound: nat) {
    && app.name == name
    && TwoSections(app.content.data)
    && app.counters.generation <= app.counters.revision <= bound
  }

  ghost predicate Inv(env: Env, db: Db, bound: nat) {
    && AliasesAreExact(env, db)
    && (forall n :: n in db.apps ==> RecordOk(n, db.apps[n], bound))
  }

  /** Replacing the alias rows of one application by those due for its new data. */
  lemma ReplacingAliasesIsExact(env: Env, db: Db, name: string, app: App)
    requires AliasesAreExact(env, db)
    requires var new_ := AliasesOf(env, name, app.content.data); !Clashes(WithoutApp(db.aliases, name), new_)
    ensures AliasesAreExact(env,
      Db(db.apps[name := app], WithoutApp(db.aliases, name) + RowsFor(name, AliasesOf(env, name, app.content.data))))
  {
    var new_ := AliasesOf(env, name, app.content.data);
    var others := WithoutApp(db.aliases, name);
    var after := Db(db.apps[name := app], others + RowsFor(name, new_));
    forall r ensures r in after.aliases <==> IsDue(env, after, r) {
      assert r in RowsFor(name, new_) <==> r.app == name && TypedAlias(r.kind, r.alias) in new_ by {
        if r.app == name && TypedAlias(r.kind, r.alias) in new_ {
          assert r == AliasRow(name, r.kind, r.alias);
        }
      }
      assert r.app != name ==> (IsDue(env, after, r) <==> IsDue(env, db, r));
    }
    forall r, q | r in after.aliases && q in after.aliases && r.alias == q.alias ensures r == q {
      assert r.app == name ==> TypedAlias(r.kind, r.alias) in new_;
      assert q.app == name ==> TypedAlias(q.kind, q.alias) in new_;
      assert r.app != name ==> r in others;
      assert q.app != name ==> q in others;
    }
  }

  /** Keeping the alias rows is right as long as the trust anchors stay. */
  lemma KeepingAliasesIsExact(env: Env, db: Db, name: string, app: App)
    requires AliasesAreExact(env, db) && name in db.apps
    requires AliasesOf(env, name, app.content.data) == AliasesOf(env, name, db.apps[name].content.data)
    ensures AliasesAreExact(env, Db(db.apps[name := app], db.aliases))
  {
    var after := Db(db.apps[name := app], db.aliases);
    forall r ensures IsDue(env, after, r) <==> IsDue(env, db, r) {
    }
  }

  lemma RemovingIsExact(env: Env, db: Db, name: string)
    requires AliasesAreExact(env, db)
    ensures AliasesAreExact(env, Db(db.apps - {name}, WithoutApp(db.aliases, name)))
  {
    var after := Db(db.apps - {name}, WithoutApp(db.aliases, name));
    forall r ensures r in after.aliases <==> IsDue(env, after, r) {
      assert IsDue(env, after, r) <==> IsDue(env, db, r) && r.app != name;
    }
  }

  lemma CountersStayBounded(own: Counters, paths: set<string>, current: Counters, bound: nat)
    requires current.generation <= current.revision <= bound
    requires own.generation <= own.revision
    ensures var (after, r) := Advanced(own, paths, current);
      r.Ok? ==> r.value == after.revision && after.generation <= after.revision <= bound + 1
  {
  }

  /** One update, whatever its caller passes: alias rows follow the data. */
  lemma UpdateKeepsInv(env: Env, db: Db, u: Update, bound: nat)
    requires Inv(env, db, bound)
    requires TwoSections(u.app.content.data) && u.app.counters.generation <= u.app.counters.revision
    requires match u.aliases
      case Some(new_) => new_ == AliasesOf(env, u.app.name, u.app.content.data)
      case None => u.app.name in db.apps ==> u.app.content.data == db.apps[u.app.name].content.data
    ensures Inv(env, After(db, PerformUpdate(env, db, u)), bound + 1)
  {
    var name := u.app.name;
    match PerformUpdate(env, db, u)
    case Removed(after) => RemovingIsExact(env, db, name);
    case Changed(after, revision, paths) =>
      var current := db.apps[name];
      CountersStayBounded(u.app.counters, paths, current.counters, bound);
      var (counters, _) := Advanced(u.app.counters, paths, current.counters);
      var record := Stored(current, u.app.(deletion := current.deletion), counters, u.freshVersion);
      assert after.apps == db.apps[name := record];
      if u.aliases.Some? {
        ReplacingAliasesIsExact(env, db, name, record);
      } else {
        KeepingAliasesIsExact(env, db, name, record);
      }
    case _ =>
  }

  lemma OpKeepsInv(env: Env, db: Db, op: Op, bound: nat)
    requires Inv(env, db, bound)
    ensures Inv(env, After(db, Exec(env, db, op)), bound + 1)
  {
    match op
    case CreateApp(_, app, _, _) =>
      EntityIsWellFormed(env, app);
      if Create(env, db, op).Changed? {
        assert WithoutApp(db.aliases, app.name) == db.aliases by {
          assert forall r :: r in db.aliases ==> IsDue(env, db, r);
        }
        ReplacingAliasesIsExact(env, db, app.name, Create(env, db, op).db.apps[app.name]);
      }
    case UpdateApp(_, app, _) =>
      EntityIsWellFormed(env, app);
      UpdateKeepsInv(env, db, UpdateOf(env, op), bound);
    case DeleteApp(_, name, _, _, _, _, _) =>
      match Delete(env, db, op) {
        case Removed(_) => RemovingIsExact(env, db, name);
        case Changed(after, _, _) => KeepingAliasesIsExact(env, db, name, after.apps[name]);
        case _ =>
      }
    case CleanApp(name, devices, version) =>
      match CleanUp(db, name, devices, version) {
        case Some(u) => UpdateKeepsInv(env, db, u, bound);
        case None =>
      }
  }

  lemma {:induction false} RunKeepsInv(env: Env, ops: seq<Op>)
    ensures Inv(env, Run(env, ops), |ops|)
  {
    if ops != [] {
      var n := |ops| - 1;
      RunKeepsInv(env, ops[..n]);
      OpKeepsInv(env, Run(env, ops[..n]), ops[n], n);
    }
  }

  /** After every run, the rows of the alias index are exactly those computed from the stored names
      and specifications, and no alias leads to two applications. */
  lemma {:induction false} AliasIndexIsExact(env: Env, ops: seq<Op>, r: AliasRow)
    ensures var db := Run(env, ops);
      && (r in db.aliases <==>
            r.app in db.apps && TypedAlias(r.kind, r.alias) in AliasesOf(env, r.app, db.apps[r.app].content.data))
      && (forall q :: q in db.aliases && q.alias == r.alias && r in db.aliases ==> q == r)
  {
    RunKeepsInv(env, ops);
    assert IsDue(env, Run(env, ops), r) <==> r in Run(env, ops).aliases;
  }

  /** The query of `lookup`. */
  ghost predicate LooksUp(db: Db, alias: string, app: App) {
    exists r :: r in db.aliases && r.alias == alias && r.app in db.apps && db.apps[r.app] == app
  }

  /** So a lookup finds an application exactly by the aliases it must have, and at most one. */
  lemma {:induction false} LookupIsExact(env: Env, ops: seq<Op>, alias: string, n: string)
    requires n in Run(env, ops).apps
    ensures var db := Run(env, ops);
      && (LooksUp(db, alias, db.apps[n]) <==>
            exists kind :: TypedAlias(kind, alias) in AliasesOf(env, n, db.apps[n].content.data))
      && (forall a, b :: LooksUp(db, alias, a) && LooksUp(db, alias, b) ==> a == b)
  {
    var db := Run(env, ops);
    RunKeepsInv(env, ops);
    if LooksUp(db, alias, db.apps[n]) {
      var r :| r in db.aliases && r.alias == alias && r.app in db.apps && db.apps[r.app] == db.apps[n];
      assert IsDue(env, db, r) && RecordOk(n, db.apps[n], |ops|) && RecordOk(r.app, db.apps[r.app], |ops|);
      assert TypedAlias(r.kind, alias) in AliasesOf(env, n, db.apps[n].content.data);
    }
    if kind :| TypedAlias(kind, alias) in AliasesOf(env, n, db.apps[n].content.data) {
      assert IsDue(env, db, AliasRow(n, kind, alias));
    }
  }

  /** The rows of one application in an exact index. */
  lemma RowsAreExact(env: Env, db: Db, name: string)
    requires AliasesAreExact(env, db) && name in db.apps
    ensures (set r | r in db.aliases && r.app == name) == RowsFor(name, AliasesOf(env, name, db.apps[name].content.data))
  {
    var aliases := AliasesOf(env, name, db.apps[name].content.data);
    forall r ensures r in db.aliases && r.app == name <==> r in RowsFor(name, aliases) {
      assert r in db.aliases <==> IsDue(env, db, r);
      if r.app == name && TypedAlias(r.kind, r.alias) in aliases {
        assert r == AliasRow(name, r.kind, r.alias);
      }
    }
  }

  /** After an accepted update, the stored data has the aliases of the submitted one, since without a
      difference in the diff there is none in the trust anchors. */
  lemma StoredAliases(env: Env, db: Db, u: Update)
    requires var o := PerformUpdate(env, db, u); o.Changed? || o.Unchanged?
    ensures var after := After(db, PerformUpdate(env, db, u)); var name := u.app.name;
      name in after.apps
      && AliasesOf(env, name, after.apps[name].content.data) == AliasesOf(env, name, u.app.content.data)
  {
    if PerformUpdate(env, db, u).Unchanged? {
      var stored := db.apps[u.app.name].content;
      ChangedCellsAreExact(stored.data, u.app.content.data, ("spec", TRUST_ANCHORS));
      assert PathOf(("spec", TRUST_ANCHORS)) !in ChangedPaths(stored, u.app.content);
    }
  }

  /** An update that is accepted and does not delete leaves exactly the aliases of the submitted
      application, even when it found nothing to change and touched no row. */
  lemma {:induction false} AcceptedUpdateIsIndexed(env: Env, ops: seq<Op>, op: Op)
    requires op.UpdateApp?
    requires var o := Exec(env, Run(env, ops), op); o.Changed? || o.Unchanged?
    ensures var db := After(Run(env, ops), Exec(env, Run(env, ops), op)); var (entity, aliases) := AppToEntity(env, op.app);
      (set r | r in db.aliases && r.app == entity.name) == RowsFor(entity.name, aliases)
  {
    var before := Run(env, ops);
    RunKeepsInv(env, ops);
    OpKeepsInv(env, before, op, |ops|);
    EntityIsWellFormed(env, op.app);
    StoredAliases(env, before, UpdateOf(env, op));
    RowsAreExact(env, After(before, Exec(env, before, op)), op.app.name);
  }

  // ----- counters -----

  ghost predicate SpecChanged(a: Content, b: Content) {
    exists k: string :: At(a.data, ("spec", k)) != At(b.data, ("spec", k))
  }

  lemma SpecChangeIsSeen(a: Content, b: Content)
    requires TwoSections(a.data) && TwoSections(b.data)
    ensures TouchesSpec(ChangedPaths(a, b)) <==> SpecChanged(a, b)
  {
    SpecPathsAreSpecCells(a, b);
    assert !StartsWith("status", "spec") by {
      assert "status"[1] == 't' && "spec"[1] == 'p';
    }
    if SpecChanged(a, b) {
      var k: string :| At(a.data, ("spec", k)) != At(b.data, ("spec", k));
      ChangedCellsAreExact(a.data, b.data, ("spec", k));
      assert StartsWith("spec", "spec");
    }
    if c :| c in ChangedCells(a.data, b.data) && StartsWith(c.0, "spec") {
      ChangedCellsAreExact(a.data, b.data, c);
      assert c == ("spec", c.1);
    }
  }

  /** Some key of the specification differs from what was submitted. */
  ghost predicate SpecDiffers(content: Content, app: Submitted) {
    exists k: string :: At(content.data, ("spec", k)) != Get(app.spec, k)
  }

  /** What an effective update does to its record. */
  ghost predicate AdvancesRecord(env: Env, current: App, next: App, app: Submitted, version: Uuid) {
    && next.counters.revision == current.counters.revision + 1
    && next.counters.generation == current.counters.generation + (if SpecDiffers(current.content, app) then 1 else 0)
    && next.version == version && IsSubmitted(env, next.content, app)
    && next == current.(counters := next.counters, version := next.version, content := next.content)
  }

  lemma EffectiveUpdateAdvances(env: Env, db: Db, u: Update, bound: nat)
    requires Inv(env, db, bound) && bound < TWO_63
    requires TwoSections(u.app.content.data) && u.app.counters == Counters(0, 0)
    requires PerformUpdate(env, db, u).Changed?
    ensures var o := PerformUpdate(env, db, u); var name := u.app.name;
      && name in db.apps && name in o.db.apps && o.db.apps == db.apps[name := o.db.apps[name]]
      && o.revision == o.db.apps[name].counters.revision == db.apps[name].counters.revision + 1
      && o.db.apps[name].counters.generation ==
         db.apps[name].counters.generation + (if SpecChanged(db.apps[name].content, u.app.content) then 1 else 0)
      && o.db.apps[name] ==
         db.apps[name].(counters := o.db.apps[name].counters, version := u.freshVersion, content := u.app.content)
  {
    var current := db.apps[u.app.name];
    assert RecordOk(u.app.name, current, bound);
    AdvancesByOne(u.app.counters, ChangedPaths(current.content, u.app.content), current.counters);
    SpecChangeIsSeen(current.content, u.app.content);
  }

  /** In every run, an effective update raises the revision by exactly one, and the generation by one
      exactly when some key of the specification changed. It stores what was submitted under a new
      version, keeps identity, owner, members and the deletion mark, and touches no other record. */
  lemma {:induction false} UpdateAdvances(env: Env, ops: seq<Op>, op: Op)
    requires |ops| < TWO_63 && op.UpdateApp?
    requires Exec(env, Run(env, ops), op).Changed?
    ensures var db := Run(env, ops); var o := Exec(env, db, op); var name := op.app.name;
      && name in db.apps && name in o.db.apps && o.db.apps == db.apps[name := o.db.apps[name]]
      && AdvancesRecord(env, db.apps[name], o.db.apps[name], op.app, op.freshVersion)
      && o.revision == o.db.apps[name].counters.revision
  {
    RunKeepsInv(env, ops);
    EntityIsWellFormed(env, op.app);
    EntityIsSubmitted(env, op.app);
    EffectiveUpdateAdvances(env, Run(env, ops), UpdateOf(env, op), |ops|);
    SpecOfEntity(env, Run(env, ops).apps[op.app.name].content, op.app);
  }

  lemma SpecOfEntity(env: Env, content: Content, app: Submitted)
    ensures SpecChanged(content, AppToEntity(env, app).0.content) <==> SpecDiffers(content, app)
  {
    EntityIsSubmitted(env, app);
  }

  /** What an operation must be like to remove this record: a delete that finds neither finalizers nor devices, or an
      update or clean-up of a marked record that leaves no finalizer. */
  predicate MayRemove(op: Op, name: string, app: App) {
    match op
    case CreateApp(_, _, _, _) => false
    case UpdateApp(_, submitted, _) => submitted.name == name && app.deletion.Some? && submitted.finalizers == []
    case DeleteApp(_, n, _, _, devices, _, _) =>
      n == name && app.deletion.None? && app.content.finalizers == [] && devices == 0
    case CleanApp(n, devices, _) =>
      && n == name && app.deletion.Some? && devices == 0
      && forall f :: f in app.content.finalizers ==> f == HAS_DEVICES
  }

  /** In every run, a record goes only by such an operation, and alone. */
  lemma RemovalNeedsMark(env: Env, ops: seq<Op>, i: nat, name: string)
    requires i < |ops| && name in Run(env, ops[..i]).apps && name !in Run(env, ops[..i + 1]).apps
    ensures MayRemove(ops[i], name, Run(env, ops[..i]).apps[name])
    ensures Run(env, ops[..i + 1]).apps == Run(env, ops[..i]).apps - {name}
  {
    assert ops[..i + 1][..i] == ops[..i];
    OpRemoves(env, Run(env, ops[..i]), ops[i], name);
  }

  lemma OpRemoves(env: Env, db: Db, op: Op, name: string)
    requires name in db.apps && name !in After(db, Exec(env, db, op)).apps
    ensures MayRemove(op, name, db.apps[name]) && After(db, Exec(env, db, op)).apps == db.apps - {name}
  {
    match op
    case UpdateApp(_, _, _) => UpdateRemoves(env, db, UpdateOf(env, op), name);
    case CleanApp(n, devices, version) =>
      if CleanUp(db, n, devices, version).Some? {
        UpdateRemoves(env, db, CleanUp(db, n, devices, version).value, name);
        HasDevicesGone(db.apps[n].content.finalizers);
      }
    case _ =>
  }

  lemma UpdateRemoves(env: Env, db: Db, u: Update, name: string)
    requires name in db.apps && name !in After(db, PerformUpdate(env, db, u)).apps
    ensures u.app.name == name && db.apps[name].deletion.Some? && u.app.content.finalizers == []
    ensures After(db, PerformUpdate(env, db, u)).apps == db.apps - {name}
  {
  }

  lemma {:induction false} HasDevicesGone(finalizers: seq<string>)
    ensures var rest := HasDevicesRemoved(finalizers);
      && HAS_DEVICES !in rest
      && (forall f :: f != HAS_DEVICES ==> (f in rest <==> f in finalizers))
      && (HAS_DEVICES !in finalizers ==> rest == finalizers)
  {
    if finalizers != [] {
      HasDevicesGone(finalizers[1..]);
      assert finalizers == [finalizers[0]] + finalizers[1..];
    }
  }

  /** What later states of a record share with earlier ones. */
  ghost predicate Continues(before: App, after: App) {
    && after.uid == before.uid && after.owner == before.owner
    && before.counters.revision <= after.counters.revision
    && (before.deletion.Some? ==> after.deletion == before.deletion)
  }

  /** As long as a record is there, its identity stays, its revision never falls, and its deletion
      mark, once set, never clears. */
  lemma {:induction false} MarksAreFinal(env: Env, ops: seq<Op>, i: nat, j: nat, name: string)
    requires i <= j <= |ops|
    requires forall h :: i <= h <= j ==> name in Run(env, ops[..h]).apps
    ensures Continues(Run(env, ops[..i]).apps[name], Run(env, ops[..j]).apps[name])
    decreases j
  {
    if i < j {
      assert name in Run(env, ops[..j - 1]).apps && name in Run(env, ops[..j]).apps;
      MarksAreFinal(env, ops, i, j - 1, name);
      NextContinues(env, ops, j, name);
    }
  }

  lemma NextContinues(env: Env, ops: seq<Op>, j: nat, name: string)
    requires 0 < j <= |ops| && name in Run(env, ops[..j - 1]).apps && name in Run(env, ops[..j]).apps
    ensures Continues(Run(env, ops[..j - 1]).apps[name], Run(env, ops[..j]).apps[name])
  {
    assert ops[..j][..j - 1] == ops[..j - 1];
    RunKeepsInv(env, ops[..j - 1]);
    StepKeepsRecord(env, Run(env, ops[..j - 1]), ops[j - 1], name, j - 1);
  }

  lemma StepKeepsRecord(env: Env, db: Db, op: Op, name: string, bound: nat)
    requires Inv(env, db, bound)
    requires name in db.apps && name in After(db, Exec(env, db, op)).apps
    ensures Continues(db.apps[name], After(db, Exec(env, db, op)).apps[name])
  {
    assert RecordOk(name, db.apps[name], bound);
    match op
    case UpdateApp(_, _, _) => UpdateKeepsRecord(env, db, UpdateOf(env, op), name);
    case CleanApp(n, devices, version) =>
      match CleanUp(db, n, devices, version) {
        case Some(u) => UpdateKeepsRecord(env, db, u, name);
        case None =>
      }
    case _ =>
  }

  lemma UpdateKeepsRecord(env: Env, db: Db, u: Update, name: string)
    requires name in db.apps && name in After(db, PerformUpdate(env, db, u)).apps
    requires u.app.name == name ==> u.app.counters.revision <= db.apps[name].counters.revision
    ensures Continues(db.apps[name], After(db, PerformUpdate(env, db, u)).apps[name])
  {
  }

  // ----- optimistic locking -----

  /** Every operation brings a version that no record had before. */
  ghost predicate FreshVersions(ops: seq<Op>) {
    forall i, j :: 0 <= i < j < |ops| ==> ops[i].freshVersion != ops[j].freshVersion
  }

  function VersionOf(db: Db, name: string): Option<Uuid> {
    if name in db.apps then Some(db.apps[name].version) else None
  }

  /** The version of a record after the first `i` operations. */
  function VersionAt(env: Env, ops: seq<Op>, i: nat, name: string): Option<Uuid>
    requires i <= |ops|
  {
    VersionOf(Run(env, ops[..i]), name)
  }

  predicate TakesEffect(env: Env, ops: seq<Op>, i: nat)
    requires i < |ops|
  {
    var o := Exec(env, Run(env, ops[..i]), ops[i]);
    o.Changed? || o.Removed?
  }

  /** An operation removes a record, gives it the fresh version, or leaves its version. */
  lemma OpChangesVersion(env: Env, db: Db, op: Op, name: string)
    ensures var v := VersionOf(After(db, Exec(env, db, op)), name);
      v == None || v == Some(op.freshVersion) || v == VersionOf(db, name)
  {
    match op
    case CleanApp(_, _, _) =>
    case _ =>
  }

  lemma NextVersion(env: Env, ops: seq<Op>, i: nat, name: string)
    requires i < |ops|
    ensures var v := VersionAt(env, ops, i + 1, name);
      v == None || v == Some(ops[i].freshVersion) || v == VersionAt(env, ops, i, name)
  {
    assert ops[..i + 1][..i] == ops[..i];
    OpChangesVersion(env, Run(env, ops[..i]), ops[i], name);
  }

  /** An effective update was made for the current version, and takes that version away. */
  lemma EffectiveUpdate(env: Env, ops: seq<Op>, i: nat)
    requires i < |ops| && ops[i].UpdateApp? && TakesEffect(env, ops, i)
    ensures var name := ops[i].app.name;
      && VersionAt(env, ops, i, name).Some?
      && (ops[i].app.version != "" ==> env.parse(ops[i].app.version) == VersionAt(env, ops, i, name))
      && (VersionAt(env, ops, i + 1, name).None? || VersionAt(env, ops, i + 1, name) == Some(ops[i].freshVersion))
  {
    assert ops[..i + 1][..i] == ops[..i];
    VersionsAreChecked(env, ops[i].app.uid, ops[i].app.version, Run(env, ops[..i]).apps[ops[i].app.name]);
  }

  /** `versions` are the versions of a record over time, `brought` those the operations brought. */
  ghost predicate Evolves(versions: seq<Option<Uuid>>, brought: seq<Uuid>) {
    && |versions| == |brought| + 1 && versions[0] == None
    && forall k :: 0 <= k < |brought| ==>
         var next := versions[k + 1]; next == None || next == Some(brought[k]) || next == versions[k]
  }

  lemma {:induction false} VersionsWereBrought(versions: seq<Option<Uuid>>, brought: seq<Uuid>, i: nat)
    requires Evolves(versions, brought) && i <= |brought| && versions[i].Some?
    ensures versions[i].value in brought[..i]
  {
    assert i > 0;
    assert versions[i - 1 + 1] == versions[i];
    if versions[i] == Some(brought[i - 1]) {
      assert brought[..i][i - 1] == versions[i].value;
    } else {
      VersionsWereBrought(versions, brought, i - 1);
    }
  }

  /** Once the version of a record is gone, no later operation brings it back. */
  lemma {:induction false} VersionNeverReturns(versions: seq<Option<Uuid>>, brought: seq<Uuid>, i: nat, j: nat, v: Uuid)
    requires Evolves(versions, brought) && i <= j <= |brought| && Distinct(brought)
    requires v in brought[..i] && versions[i] != Some(v)
    ensures versions[j] != Some(v)
    decreases j
  {
    if i < j {
      VersionNeverReturns(versions, brought, i, j - 1, v);
      assert versions[j - 1 + 1] == versions[j];
    }
  }

  function Versions(env: Env, ops: seq<Op>, name: string): seq<Option<Uuid>> {
    seq(|ops| + 1, k requires 0 <= k <= |ops| => VersionAt(env, ops, k, name))
  }

  function Brought(ops: seq<Op>): seq<Uuid> {
    seq(|ops|, k requires 0 <= k < |ops| => ops[k].freshVersion)
  }

  lemma VersionsEvolve(env: Env, ops: seq<Op>, name: string)
    ensures Evolves(Versions(env, ops, name), Brought(ops))
  {
    forall k | 0 <= k < |ops|
      ensures var next := Versions(env, ops, name)[k + 1];
        next == None || next == Some(Brought(ops)[k]) || next == Versions(env, ops, name)[k]
    {
      NextVersion(env, ops, k, name);
    }
  }

  lemma VersionIsGone(versions: seq<Option<Uuid>>, brought: seq<Uuid>, i: nat, j: nat)
    requires Evolves(versions, brought) && Distinct(brought) && i < j < |brought|
    requires versions[i].Some? && versions[i + 1] in {None, Some(brought[i])}
    ensures versions[j] != versions[i]
  {
    var v := versions[i].value;
    VersionsWereBrought(versions, brought, i);
    var h :| 0 <= h < i && brought[..i][h] == v;
    assert brought[..i + 1][h] == v && brought[h] != brought[i];
    VersionNeverReturns(versions, brought, i + 1, j, v);
  }

  /** At most one of the updates that expect the same version, however they spell it, takes effect. */
  lemma {:induction false} AtMostOneUpdateWins(env: Env, ops: seq<Op>, i: nat, j: nat)
    requires i < j < |ops| && FreshVersions(ops)
    requires ops[i].UpdateApp? && ops[j].UpdateApp?
    requires ops[i].app.name == ops[j].app.name && ops[i].app.version != "" && ops[j].app.version != ""
    requires env.parse(ops[i].app.version) == env.parse(ops[j].app.version)
    ensures !(TakesEffect(env, ops, i) && TakesEffect(env, ops, j))
  {
    if TakesEffect(env, ops, i) && TakesEffect(env, ops, j) {
      EffectiveUpdate(env, ops, i);
      EffectiveUpdate(env, ops, j);
      VersionsEvolve(env, ops, ops[i].app.name);
      VersionIsGone(Versions(env, ops, ops[i].app.name), Brought(ops), i, j);
    }
  }
}
