/** The application registry: records, the alias index and the update transaction. */
module Registry {
  import opened Common
  import opened Diff
  import opened Auth
  import opened Generation
  import Outbox

  /** A UUID in its canonical text form. */
  type Uuid = string

  const NIL: Uuid := "00000000-0000-0000-0000-000000000000"

  /** An application record. */
  datatype App = App(
    name: string, uid: Uuid, counters: Counters, version: Uuid, deletion: Option<int>,
    owner: Option<string>, members: map<string, Role>, content: Content)

  datatype TypedAlias = TypedAlias(kind: string, alias: string)

  /** A row of APPLICATION_ALIASES, whose primary key is the column ALIAS alone. */
  datatype AliasRow = AliasRow(app: string, kind: string, alias: string)

  datatype Db = Db(apps: map<string, App>, aliases: set<AliasRow>)

  datatype Error = NotFound | NotAuthorized | Conflict | NotAdvancing(error: AdvanceError)

  /** What the registry is not concerned with: parsing UUIDs and X.509 trust anchors. */
  datatype Env = Env(instance: string, parse: string -> Option<Uuid>, anchors: Value -> Option<Anchors>)

  /** The outcome of reading a trust anchor section: its status and the subjects of its valid certificates. */
  datatype Anchors = Anchors(status: Value, subjects: set<string>)

  // ----- conversion -----

  /** An application as the API hands it in. */
  datatype Submitted = Submitted(
    name: string, uid: string, version: string, labels: map<string, string>, annotations: map<string, string>,
    finalizers: seq<string>, spec: map<string, Value>, status: map<string, Value>)

  const TRUST_ANCHORS := "trustAnchors"

  /** The aliases an application must have, by its name and the trust anchors of its specification. */
  function AliasesOf(env: Env, name: string, data: Value): set<TypedAlias> {
    {TypedAlias("name", name)} +
    match At(data, ("spec", TRUST_ANCHORS))
    case None => {}
    case Some(section) =>
      match env.anchors(section)
      case None => {}
      case Some(anchors) => set subject | subject in anchors.subjects :: TypedAlias("x509/ca", subject)
  }

  function AppToEntity(env: Env, app: Submitted): (App, set<TypedAlias>) {
    var anchors := if TRUST_ANCHORS in app.spec then env.anchors(app.spec[TRUST_ANCHORS]) else None;
    var status := match anchors { case Some(a) => app.status[TRUST_ANCHORS := a.status] case None => app.status };
    var aliases := {TypedAlias("name", app.name)} +
      match anchors
      case Some(a) => set subject | subject in a.subjects :: TypedAlias("x509/ca", subject)
      case None => {};
    var data := Object(map["spec" := Object(app.spec), "status" := Object(status)]);
    (App(app.name, NIL, Counters(0, 0), NIL, None, None, map[],
         Content(app.labels, app.annotations, app.finalizers, data)),
     aliases)
  }

  /** The subjects of the valid trust anchors that an application is submitted with. */
  function Subjects(env: Env, app: Submitted): set<string> {
    if TRUST_ANCHORS in app.spec && env.anchors(app.spec[TRUST_ANCHORS]).Some?
    then env.anchors(app.spec[TRUST_ANCHORS]).value.subjects
    else {}
  }

  /** The content is what was submitted, and the status of the trust anchors where there are some. */
  ghost predicate IsSubmitted(env: Env, content: Content, app: Submitted) {
    && content.labels == app.labels && content.annotations == app.annotations && content.finalizers == app.finalizers
    && (forall k: string :: At(content.data, ("spec", k)) == Get(app.spec, k))
    && (forall k: string :: At(content.data, ("status", k)) ==
          if k == "trustAnchors" && "trustAnchors" in app.spec && env.anchors(app.spec["trustAnchors"]).Some?
          then Some(env.anchors(app.spec["trustAnchors"]).value.status)
          else Get(app.status, k))
    && (forall c: Cell :: c.0 != "spec" && c.0 != "status" ==> At(content.data, c) == None)
  }

  /** Conversion keeps what was submitted. */
  lemma EntityIsSubmitted(env: Env, app: Submitted)
    ensures var (entity, aliases) := AppToEntity(env, app);
      && entity.name == app.name && IsSubmitted(env, entity.content, app)
      && aliases == {TypedAlias("name", app.name)} + set s | s in Subjects(env, app) :: TypedAlias("x509/ca", s)
  {
    var data := AppToEntity(env, app).0.content.data;
    assert Section(data, "spec") == Object(app.spec);
    assert "status" != "spec";
  }

  /** The converted entity carries the right aliases, starts below any stored counter, has dot-free
      section names, and always has the nil uid. */
  lemma EntityIsWellFormed(env: Env, app: Submitted)
    ensures var (entity, aliases) := AppToEntity(env, app);
      && aliases == AliasesOf(env, entity.name, entity.content.data)
      && entity.counters == Counters(0, 0) && entity.uid == NIL
      && DotFreeSections(entity.content.data)
      && (forall s :: s in Fields(entity.content.data) && StartsWith(s, "spec") ==> s == "spec")
  {
    var data := AppToEntity(env, app).0.content.data;
    assert Section(data, "spec") == Object(app.spec);
    assert !StartsWith("status", "spec") by {
      assert "status"[1] == 't' && "spec"[1] == 'p';
    }
  }

  // ----- optimistic locking -----

  datatype Constraints = Constraints(uid: Uuid, version: Uuid)

  function IsOkAndEqual(env: Env, expected: string, actual: Uuid): Option<Uuid> {
    if expected == "" then Some(actual)
    else
      match env.parse(expected)
      case Some(uuid) => if uuid == actual then Some(uuid) else None
      case None => None
  }

  function CheckVersions(env: Env, uid: string, version: string, current: App): Result<Constraints, Error> {
    var u := if uid != "" then IsOkAndEqual(env, uid, current.uid) else Some(current.uid);
    if u.None? then Err(Conflict)
    else
      var v := IsOkAndEqual(env, version, current.version);
      if v.None? then Err(Conflict) else Ok(Constraints(u.value, v.value))
  }

  /** An expectation is met if it is empty or denotes the current value; the constraints always are
      the current values. */
  predicate Meets(env: Env, expected: string, actual: Uuid) {
    expected == "" || env.parse(expected) == Some(actual)
  }

  lemma VersionsAreChecked(env: Env, uid: string, version: string, current: App)
    ensures var r := CheckVersions(env, uid, version, current);
      && (r.Ok? <==> Meets(env, uid, current.uid) && Meets(env, version, current.version))
      && (r.Ok? ==> r.value == Constraints(current.uid, current.version))
      && (r.Err? ==> r.error == Conflict)
  {
  }

  // ----- aliases -----

  predicate UniqueAliases(rows: set<AliasRow>) {
    forall r, q :: r in rows && q in rows && r.alias == q.alias ==> r == q
  }

  function RowsFor(name: string, aliases: set<TypedAlias>): set<AliasRow> {
    set a | a in aliases :: AliasRow(name, a.kind, a.alias)
  }

  /** Inserting these aliases violates the primary key. */
  predicate Clashes(rows: set<AliasRow>, aliases: set<TypedAlias>) {
    || (exists a, r :: a in aliases && r in rows && r.alias == a.alias)
    || (exists a, b :: a in aliases && b in aliases && a != b && a.alias == b.alias)
  }

  function WithoutApp(rows: set<AliasRow>, name: string): set<AliasRow> {
    set r | r in rows && r.app != name
  }

  // ----- updating an application -----

  datatype Update = Update(
    identity: Option<User>, app: App, aliases: Option<set<TypedAlias>>,
    expectedUid: string, expectedVersion: string, freshVersion: Uuid)

  datatype Outcome =
    | Rejected(error: Error)
    | Removed(db: Db)
    | Unchanged
    | Changed(db: Db, revision: u64, paths: set<string>)

  /** The columns that `update_data` writes. */
  function Stored(current: App, app: App, counters: Counters, version: Uuid): App {
    current.(name := app.name, counters := counters, version := version, deletion := app.deletion, content := app.content)
  }

  /** The result of `update_data`: the record, and its alias rows if new ones are given. */
  function UpdateData(db: Db, record: App, aliases: Option<set<TypedAlias>>): Result<Db, Error> {
    var apps := db.apps[record.name := record];
    match aliases
    case None => Ok(Db(apps, db.aliases))
    case Some(new_) =>
      var others := WithoutApp(db.aliases, record.name);
      if Clashes(others, new_) then Err(Conflict) else Ok(Db(apps, others + RowsFor(record.name, new_)))
  }

  /** The outcome of `perform_update_app`. */
  function PerformUpdate(env: Env, db: Db, u: Update): Outcome {
    if u.app.name !in db.apps then Rejected(NotFound)
    else
      var current := db.apps[u.app.name];
      if u.identity.Some? && Authorize(current.owner, current.members, u.identity.value, WritePermission).Deny?
      then Rejected(NotAuthorized)
      else
        var versions := CheckVersions(env, u.expectedUid, u.expectedVersion, current);
        if versions.Err? then Rejected(versions.error)
        else
          var app := u.app.(deletion := current.deletion);
          if app.deletion.Some? && app.content.finalizers == []
          then Removed(Db(db.apps - {app.name}, WithoutApp(db.aliases, app.name)))
          else
            var paths := ChangedPaths(current.content, app.content);
            if paths == {} then Unchanged
            else
              var (counters, revision) := Advanced(app.counters, paths, current.counters);
              if revision.Err? then Rejected(NotAdvancing(revision.error))
              else
                match UpdateData(db, Stored(current, app, counters, u.freshVersion), u.aliases)
                case Err(e) => Rejected(e)
                case Ok(after) => Changed(after, revision.value, paths)
  }

  /** The events of a change: one per path, in some order. */
  ghost predicate AreEvents(events: seq<Outbox.Event>, env: Env, app: string, uid: Uuid, revision: u64, paths: set<string>) {
    && (forall p :: p in paths ==> Outbox.Application(env.instance, app, uid, p, revision) in events)
    && (forall ev :: ev in events ==>
          ev.Application? && ev.path in paths && ev == Outbox.Application(env.instance, app, uid, ev.path, revision))
  }

  /** No two sections of the records collide, so a diff names each change once. */
  ghost predicate NoCollidingSections(a: App, b: App) {
    NoneCollide(Fields(a.content.data).Keys + Fields(b.content.data).Keys)
  }

  /** `Event::new_app`: one event per path, or one for the object as a whole. */
  function NewApp(env: Env, app: string, uid: Uuid, revision: u64, paths: seq<string>): (events: seq<Outbox.Event>)
    ensures AreEvents(events, env, app, uid, revision, if paths == [] then {"."} else Elements(paths))
    ensures Distinct(paths) ==> Distinct(events)
  {
    if paths == [] then [Outbox.Application(env.instance, app, uid, ".", revision)]
    else
      var events := seq(|paths|, i requires 0 <= i < |paths| => Outbox.Application(env.instance, app, uid, paths[i], revision));
      assert forall i :: 0 <= i < |paths| ==> events[i] in events && events[i].path == paths[i];
      events
  }

  /** The state a successful outcome leaves. */
  function After(db: Db, o: Outcome): Db {
    match o
    case Removed(after) => after
    case Changed(after, _, _) => after
    case _ => db
  }

  /** `create` for each event of a transaction, in turn. */
  function CreateAll(rows: Outbox.Table, events: seq<Outbox.Event>, now: int): Outbox.Table {
    if events == [] then rows
    else
      var n := |events| - 1;
      Outbox.CreateIn(CreateAll(rows, events[..n], now), Outbox.EntryOf(events[n]), now)
  }

  function HasDevicesRemoved(finalizers: seq<string>): seq<string> {
    if finalizers == [] then []
    else
      var rest := HasDevicesRemoved(finalizers[1..]);
      if finalizers[0] == HAS_DEVICES then rest else [finalizers[0]] + rest
  }

  const HAS_DEVICES := "has-devices"

  /** The update that `check_clean_app` performs, if it performs one. */
  function CleanUp(db: Db, name: string, devices: nat, freshVersion: Uuid): Option<Update> {
    if name !in db.apps || db.apps[name].deletion.None? || devices > 0 then None
    else
      var app := db.apps[name];
      var content := app.content.(finalizers := HasDevicesRemoved(app.content.finalizers));
      Some(Update(None, app.(name := name, content := content), None, "", "", freshVersion))
  }

  class Store {
    var apps: map<string, App>
    var aliases: set<AliasRow>

    function Value(): Db
      reads this
    {
      Db(apps, aliases)
    }

    constructor ()
      ensures Value() == Db(map[], {})
    {
      apps, aliases := map[], {};
    }

    /** One INSERT per alias, until the first one that violates the primary key. */
    method InsertAliases(name: string, new_: set<TypedAlias>) returns (ok: bool)
      modifies this`aliases
      ensures ok <==> !Clashes(old(aliases), new_)
      ensures ok ==> aliases == old(aliases) + RowsFor(name, new_)
    {
      var todo := new_;
      while todo != {}
        invariant todo <= new_
        invariant aliases == old(aliases) + RowsFor(name, new_ - todo)
        invariant !Clashes(old(aliases), new_ - todo)
      {
        var a :| a in todo;
        if exists r :: r in aliases && r.alias == a.alias {
          return false;
        }
        assert RowsFor(name, new_ - (todo - {a})) == RowsFor(name, new_ - todo) + {AliasRow(name, a.kind, a.alias)} by {
          assert new_ - (todo - {a}) == new_ - todo + {a};
        }
        assert forall b :: b in new_ - todo ==> AliasRow(name, b.kind, b.alias) in aliases;
        aliases := aliases + {AliasRow(name, a.kind, a.alias)};
        todo := todo - {a};
      }
      assert new_ - todo == new_;
      ok := true;
    }

    method UpdateRecord(record: App, new_: Option<set<TypedAlias>>) returns (r: Result<nat, Error>)
      requires record.name in apps
      modifies this
      ensures match UpdateData(old(Value()), record, new_)
        case Ok(db) => r == Ok(1) && Value() == db
        case Err(e) => r == Err(e)
    {
      apps := apps[record.name := record];
      if new_.Some? {
        aliases := WithoutApp(aliases, record.name);
        var ok := InsertAliases(record.name, new_.value);
        if !ok {
          return Err(Conflict);
        }
      }
      r := Ok(1);
    }

    /** Inside a transaction: on an error the state is left as it is, for the caller to roll back. */
    method PerformUpdateApp(env: Env, u: Update) returns (r: Result<seq<Outbox.Event>, Error>)
      modifies this
      ensures match PerformUpdate(env, old(Value()), u)
        case Rejected(e) => r == Err(e)
        case Removed(db) => r == Ok([]) && Value() == db
        case Unchanged => r == Ok([]) && Value() == old(Value())
        case Changed(db, revision, paths) =>
          && r.Ok? && Value() == db && AreEvents(r.value, env, u.app.name, u.app.uid, revision, paths)
          && (NoCollidingSections(old(apps[u.app.name]), u.app) ==> Distinct(r.value))
    {
      if u.app.name !in apps {
        return Err(NotFound);
      }
      var current := apps[u.app.name];
      if u.identity.Some? {
        if Authorize(current.owner, current.members, u.identity.value, WritePermission).Deny? {
          return Err(NotAuthorized);
        }
      }
      var versions := CheckVersions(env, u.expectedUid, u.expectedVersion, current);
      if versions.Err? {
        return Err(versions.error);
      }
      var app := u.app.(deletion := current.deletion);
      if app.deletion.Some? && app.content.finalizers == [] {
        apps, aliases := apps - {app.name}, WithoutApp(aliases, app.name);
        return Ok([]);
      }
      var paths, _ := DiffPaths(current.content, app.content);
      assert Elements(paths) == ChangedPaths(current.content, app.content);
      if paths == [] {
        return Ok([]);
      }
      assert paths[0] in ChangedPaths(current.content, app.content);
      r := StoreChange(env, u, current, app, paths);
    }

    /** The part of an update that has found something to change. */
    method StoreChange(env: Env, u: Update, current: App, app: App, paths: seq<string>)
      returns (r: Result<seq<Outbox.Event>, Error>)
      requires app.name in apps && paths != []
      modifies this
      ensures var (counters, revision) := Advanced(app.counters, Elements(paths), current.counters);
        if revision.Err? then r == Err(NotAdvancing(revision.error))
        else
          match UpdateData(old(Value()), Stored(current, app, counters, u.freshVersion), u.aliases)
          case Err(e) => r == Err(e)
          case Ok(db) =>
            && r.Ok? && Value() == db && AreEvents(r.value, env, app.name, app.uid, revision.value, Elements(paths))
            && (Distinct(paths) ==> Distinct(r.value))
    {
      var counters := new Versioned(app.counters);
      var revision := counters.AdvanceFrom(paths, current.counters);
      if revision.Err? {
        return Err(NotAdvancing(revision.error));
      }
      var record := Stored(current, app, Counters(counters.generation, counters.revision), u.freshVersion);
      var updated := UpdateRecord(record, u.aliases);
      if updated.Err? {
        return Err(updated.error);
      }
      r := Ok(NewApp(env, app.name, app.uid, revision.value, paths));
    }

    /** The whole transaction of an update: all of it, with its outbox entries, or nothing. */
    method UpdateApp(env: Env, u: Update, outbox: Outbox.OutboxTable, now: int)
      returns (r: Result<seq<Outbox.Event>, Error>)
      modifies this, outbox
      ensures r.Err? <==> PerformUpdate(env, old(Value()), u).Rejected?
      ensures r.Err? ==> Value() == old(Value()) && outbox.rows == old(outbox.rows)
      ensures r.Ok? ==> Value() == After(old(Value()), PerformUpdate(env, old(Value()), u))
      ensures r.Ok? ==> outbox.rows == CreateAll(old(outbox.rows), r.value, now)
      ensures var o := PerformUpdate(env, old(Value()), u);
        if o.Changed?
        then && r.Ok? && AreEvents(r.value, env, u.app.name, u.app.uid, o.revision, o.paths)
             && (NoCollidingSections(old(apps[u.app.name]), u.app) ==> Distinct(r.value))
        else r.Ok? ==> r.value == []
    {
      var savedApps, savedAliases := apps, aliases;
      r := PerformUpdateApp(env, u);
      if r.Err? {
        apps, aliases := savedApps, savedAliases;
        return;
      }
      var events := r.value;
      for i := 0 to |events|
        invariant Value() == After(old(Value()), PerformUpdate(env, old(Value()), u))
        invariant outbox.rows == CreateAll(old(outbox.rows), events[..i], now)
      {
        outbox.Create(Outbox.EntryOf(events[i]), now);
        assert events[..i + 1][..i] == events[..i];
      }
      assert events[..|events|] == events;
    }

    /** Called when a device is gone. The events of the update are dropped. */
    method CheckCleanApp(env: Env, name: string, devices: nat, freshVersion: Uuid) returns (r: Result<(), Error>)
      modifies this
      ensures match CleanUp(old(Value()), name, devices, freshVersion)
        case None => r == Ok(()) && Value() == old(Value())
        case Some(u) =>
          var o := PerformUpdate(env, old(Value()), u);
          if o.Rejected? then r == Err(o.error) else r == Ok(()) && Value() == After(old(Value()), o)
    {
      if name !in apps || apps[name].deletion.None? || devices > 0 {
        return Ok(());
      }
      var app := apps[name];
      var content := app.content.(finalizers := HasDevicesRemoved(app.content.finalizers));
      var events := PerformUpdateApp(env, Update(None, app.(name := name, content := content), None, "", "", freshVersion));
      r := if events.Err? then Err(events.error) else Ok(());
    }
  }
}
