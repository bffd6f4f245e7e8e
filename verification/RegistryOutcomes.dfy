/** Which operations on applications are accepted, in every run, by what the caller can see: the records, the aliases, the
    user, and what was submitted. */
module RegistryOutcomes {
  import opened Common
  import opened Diff
  import opened Auth
  import opened Generation
  import opened Registry
  import opened RegistryRuns

  /** The user may write to the record. */
  predicate MayWrite(u: User, app: App) {
    May(app.owner, app.members, u, {AdminRole, ManagerRole})
  }

  predicate MayAdminister(u: User, app: App) {
    May(app.owner, app.members, u, {AdminRole})
  }

  /** In every run, an update is refused exactly if the record is there, and the user is neither an admin, nor its owner
      (if it has one), nor a member who is an admin or a manager. */
  lemma UpdateIsRefused(env: Env, ops: seq<Op>, op: Op)
    requires op.UpdateApp?
    ensures var db := Run(env, ops);
      Exec(env, db, op) == Rejected(NotAuthorized) <==>
        op.app.name in db.apps && !MayWrite(op.identity, db.apps[op.app.name])
  {
    var db := Run(env, ops);
    if op.app.name in db.apps {
      var app := db.apps[op.app.name];
      PermissionsAreRoles(app.owner, app.members, op.identity);
      VersionsAreChecked(env, op.app.uid, op.app.version, app);
    }
  }

  /** A delete takes an admin, or the owner, or a member who is an admin; the record must not be marked yet. */
  lemma DeleteIsRefused(env: Env, ops: seq<Op>, op: Op)
    requires op.DeleteApp?
    ensures var db := Run(env, ops);
      Exec(env, db, op) == Rejected(NotAuthorized) <==>
        op.name in db.apps && db.apps[op.name].deletion == None && !MayAdminister(op.identity, db.apps[op.name])
  {
    var db := Run(env, ops);
    if op.name in db.apps {
      var app := db.apps[op.name];
      PermissionsAreRoles(app.owner, app.members, op.identity);
      VersionsAreChecked(env, op.expectedUid, op.expectedVersion, app);
    }
  }

  // ----- aliases -----

  /** An alias that the submitted application needs leads to another application, or is needed twice. */
  ghost predicate AliasTaken(env: Env, db: Db, app: Submitted) {
    || app.name in Subjects(env, app)
    || (exists r :: r in db.aliases && r.app != app.name && (r.alias == app.name || r.alias in Subjects(env, app)))
  }

  lemma ClashesAreTaken(env: Env, db: Db, app: Submitted)
    ensures Clashes(WithoutApp(db.aliases, app.name), AppToEntity(env, app).1) <==> AliasTaken(env, db, app)
  {
    var aliases, others := AppToEntity(env, app).1, WithoutApp(db.aliases, app.name);
    EntityIsSubmitted(env, app);
    var own := TypedAlias("name", app.name);
    assert own in aliases;
    if app.name in Subjects(env, app) {
      assert TypedAlias("x509/ca", app.name) in aliases;
    }
    if r :| r in db.aliases && r.app != app.name && (r.alias == app.name || r.alias in Subjects(env, app)) {
      assert r in others;
      if r.alias in Subjects(env, app) {
        assert TypedAlias("x509/ca", r.alias) in aliases;
      } else {
        assert own.alias == r.alias;
      }
    }
  }

  // ----- updates -----

  /** What the caller expects of the record is so. */
  predicate ExpectationsMet(env: Env, uid: string, version: string, app: App) {
    && (uid == "" || env.parse(uid) == Some(app.uid))
    && (version == "" || env.parse(version) == Some(app.version))
  }

  /** Nothing differs exactly if the content is what was submitted. */
  lemma NoChangeMeansSubmitted(env: Env, content: Content, app: Submitted)
    ensures ChangedPaths(content, AppToEntity(env, app).0.content) == {} <==> IsSubmitted(env, content, app)
  {
    var entity := AppToEntity(env, app).0.content;
    EntityIsSubmitted(env, app);
    NothingReportedMeansEqual(content, entity);
  }

  /** The outcome of an update in every run, case by case. It never fails for its counters. */
  lemma UpdateOutcome(env: Env, ops: seq<Op>, op: Op)
    requires op.UpdateApp? && |ops| < TWO_63
    ensures var db := Run(env, ops); var o := Exec(env, db, op); var name := op.app.name;
      if name !in db.apps then o == Rejected(NotFound)
      else
        var app := db.apps[name];
        if !MayWrite(op.identity, app) then o == Rejected(NotAuthorized)
        else if !ExpectationsMet(env, op.app.uid, op.app.version, app) then o == Rejected(Conflict)
        else if app.deletion.Some? && op.app.finalizers == [] then o.Removed?
        else if IsSubmitted(env, app.content, op.app) then o.Unchanged?
        else if AliasTaken(env, db, op.app) then o == Rejected(Conflict)
        else o.Changed?
  {
    var db, name := Run(env, ops), op.app.name;
    if name in db.apps {
      var app := db.apps[name];
      RunKeepsInv(env, ops);
      assert RecordOk(name, app, |ops|);
      PermissionsAreRoles(app.owner, app.members, op.identity);
      VersionsAreChecked(env, op.app.uid, op.app.version, app);
      EntityIsWellFormed(env, op.app);
      EntityIsSubmitted(env, op.app);
      NoChangeMeansSubmitted(env, app.content, op.app);
      var entity := AppToEntity(env, op.app).0;
      AdvancesByOne(entity.counters, ChangedPaths(app.content, entity.content), app.counters);
      ClashesAreTaken(env, db, op.app);
    }
  }

  // ----- creation -----

  /** In every run, a creation succeeds exactly if neither the name nor an alias is taken. The new application belongs to
      its creator, has no members and no mark, starts at revision and generation zero, and is what was submitted. */
  lemma CreateOutcome(env: Env, ops: seq<Op>, op: Op)
    requires op.CreateApp?
    ensures var db := Run(env, ops); var o := Exec(env, db, op); var name := op.app.name;
      if name in db.apps || AliasTaken(env, db, op.app) then o == Rejected(Conflict)
      else
        && o.Changed? && name in o.db.apps && o.db.apps == db.apps[name := o.db.apps[name]]
        && var app := o.db.apps[name];
           && app == App(name, op.uid, Counters(0, 0), op.freshVersion, None,
                         if op.creator.Authenticated? then Some(op.creator.userId) else None, map[], app.content)
           && IsSubmitted(env, app.content, op.app)
  {
    var db, name := Run(env, ops), op.app.name;
    RunKeepsInv(env, ops);
    EntityIsSubmitted(env, op.app);
    if name !in db.apps {
      assert WithoutApp(db.aliases, name) == db.aliases by {
        assert forall r :: r in db.aliases ==> IsDue(env, db, r);
      }
      ClashesAreTaken(env, db, op.app);
    }
  }

  // ----- deletion -----

  /** In every run, a delete removes a record without finalizers and devices, and otherwise marks it: it gets the time,
      a new version and the next revision, and the finalizer for devices if there are some left. */
  lemma DeleteOutcome(env: Env, ops: seq<Op>, op: Op)
    requires op.DeleteApp? && |ops| < TWO_63
    ensures var db := Run(env, ops); var o := Exec(env, db, op); var name := op.name;
      if name !in db.apps || db.apps[name].deletion.Some? then o == Rejected(NotFound)
      else
        var app := db.apps[name];
        if !MayAdminister(op.identity, app) then o == Rejected(NotAuthorized)
        else if !ExpectationsMet(env, op.expectedUid, op.expectedVersion, app) then o == Rejected(Conflict)
        else if app.content.finalizers == [] && op.devices == 0 then o.Removed? && o.db.apps == db.apps - {name}
        else
          && o.Changed? && o.paths == {METADATA} && o.revision == app.counters.revision + 1
          && o.db.apps == db.apps[name := app.(
               deletion := Some(op.now), version := op.freshVersion,
               counters := app.counters.(revision := app.counters.revision + 1),
               content := app.content.(
                 finalizers := app.content.finalizers + if op.devices > 0 then ["has-devices"] else []))]
  {
    var db, name := Run(env, ops), op.name;
    if name in db.apps {
      var app := db.apps[name];
      RunKeepsInv(env, ops);
      assert RecordOk(name, app, |ops|);
      PermissionsAreRoles(app.owner, app.members, op.identity);
      VersionsAreChecked(env, op.expectedUid, op.expectedVersion, app);
    }
  }
}
