/** The transactional outbox: one row per (application, device, path), written inside the
    transaction of a change, and removed once the change event came back from Kafka. */
module Outbox {
  import opened Common

  /** A registry event. */
  datatype Event =
    | Application(instance: string, application: string, uid: string, path: string, revision: u64)
    | Device(instance: string, application: string, device: string, uid: string, path: string, revision: u64)

  datatype Entry = Entry(
    instance: string, app: string, device: Option<string>, path: string, revision: u64, uid: string)

  function EntryOf(e: Event): Entry {
    match e
    case Application(instance, app, uid, path, revision) => Entry(instance, app, None, path, revision, uid)
    case Device(instance, app, device, uid, path, revision) => Entry(instance, app, Some(device), path, revision, uid)
  }

  function EventOf(e: Entry): Event {
    match e.device
    case Some(device) => Device(e.instance, e.app, device, e.uid, e.path, e.revision)
    case None => Application(e.instance, e.app, e.uid, e.path, e.revision)
  }

  /** The primary key of the table. */
  datatype Key = Key(app: string, device: string, path: string)

  datatype Row = Row(instance: string, revision: i64, uid: string, ts: int)

  type Table = map<Key, Row>

  function KeyOf(e: Entry): Key {
    Key(e.app, match e.device { case Some(d) => d case None => "" }, e.path)
  }

  function RowOf(e: Entry, now: int): Row {
    Row(e.instance, AsI64(e.revision), e.uid, now)
  }

  /** Reading a row back: an empty device column means "no device". */
  function FromRow(k: Key, r: Row): Entry {
    Entry(r.instance, k.app, if k.device == "" then None else Some(k.device), k.path, AsU64(r.revision), r.uid)
  }

  /** The identity of a change, as `mark_seen` matches it: everything but the instance. */
  datatype Change = Change(key: Key, uid: string, revision: u64)

  function ChangeOf(e: Entry): Change {
    Change(KeyOf(e), e.uid, e.revision)
  }

  function ChangeOfRow(k: Key, r: Row): Change {
    Change(k, r.uid, AsU64(r.revision))
  }

  /** Event, entry and row are three encodings of one change. The entry survives storage exactly
      when its device name is not the empty string, which the row uses for "no device". */
  lemma StorageRoundTrip(e: Entry, now: int)
    ensures EntryOf(EventOf(e)) == e
    ensures FromRow(KeyOf(e), RowOf(e, now)) == e <==> e.device != Some("")
    ensures ChangeOf(FromRow(KeyOf(e), RowOf(e, now))) == ChangeOf(e)
  {
  }

  /** The entry of an event has its fields. */
  lemma EntriesKeepFields(ev: Event)
    ensures EventOf(EntryOf(ev)) == ev
    ensures var e := EntryOf(ev);
      && e.instance == ev.instance && e.app == ev.application && e.uid == ev.uid
      && e.path == ev.path && e.revision == ev.revision
      && e.device == if ev.Device? then Some(ev.device) else None
    ensures KeyOf(EntryOf(ev)) == Key(ev.application, if ev.Device? then ev.device else "", ev.path)
  {
  }

  /** Storing revisions as INT8 keeps their order exactly below (or exactly above) 2^63. */
  lemma SqlOrderAgrees(a: u64, b: u64)
    ensures a != b ==>
      ((AsI64(a) < AsI64(b) <==> a < b) <==> (a < TWO_63 <==> b < TWO_63))
  {
  }

  /** The condition of the upsert under which an existing row is overwritten. */
  predicate Supersedes(e: Entry, r: Row) {
    r.revision < AsI64(e.revision) || r.uid != e.uid
  }

  /** `INSERT ... ON CONFLICT (APP, DEVICE, PATH) DO UPDATE ... WHERE`. The column INSTANCE is
      not among the updated ones. */
  function CreateIn(t: Table, e: Entry, now: int): Table {
    var k := KeyOf(e);
    if k !in t then t[k := RowOf(e, now)]
    else if Supersedes(e, t[k]) then t[k := RowOf(e, now).(instance := t[k].instance)]
    else t
  }

  /** The condition of the delete in `mark_seen`. */
  predicate Covers(e: Entry, k: Key, r: Row) {
    k == KeyOf(e) && r.revision <= AsI64(e.revision) && r.uid == e.uid
  }

  function MarkSeenIn(t: Table, e: Entry): Table {
    var k := KeyOf(e);
    if k in t && Covers(e, k, t[k]) then t - {k} else t
  }

  /** The result of the query of `fetch_unread`: the keys of the rows older than `cutoff`,
      each once, oldest first. */
  predicate IsUnread(t: Table, cutoff: int, keys: seq<Key>) {
    && (forall k :: k in keys ==> k in t)
    && Enumerates(keys, set k | k in t && t[k].ts < cutoff)
    && (forall i, j :: 0 <= i < j < |keys| ==> t[keys[i]].ts <= t[keys[j]].ts)
  }

  class OutboxTable {
    var rows: Table

    constructor ()
      ensures rows == map[]
    {
      rows := map[];
    }

    method Create(e: Entry, now: int)
      modifies this
      ensures rows == CreateIn(old(rows), e, now)
    {
      var k := KeyOf(e);
      if k !in rows {
        rows := rows[k := RowOf(e, now)];
      } else if rows[k].revision < AsI64(e.revision) || rows[k].uid != e.uid {
        rows := rows[k := Row(rows[k].instance, AsI64(e.revision), e.uid, now)];
      }
    }

    method MarkSeen(e: Entry) returns (hit: bool)
      modifies this
      ensures rows == MarkSeenIn(old(rows), e)
      ensures hit <==> rows != old(rows)
      ensures hit <==> KeyOf(e) in old(rows) && KeyOf(e) !in rows
    {
      var k := KeyOf(e);
      hit := k in rows && rows[k].revision <= AsI64(e.revision) && rows[k].uid == e.uid;
      if hit {
        rows := rows - {k};
        assert k !in rows;
      }
    }

    method FetchUnread(now: int, before: int) returns (keys: seq<Key>)
      ensures IsUnread(rows, now - before, keys)
    {
      var cutoff := now - before;
      var todo := set k | k in rows && rows[k].ts < cutoff;
      keys := [];
      while todo != {}
        invariant todo <= rows.Keys
        invariant forall k :: (k in rows && rows[k].ts < cutoff) <==> (k in keys || k in todo)
        invariant forall k :: k in todo ==> k !in keys
        invariant Distinct(keys)
        invariant forall i, j :: 0 <= i < j < |keys| ==> rows[keys[i]].ts <= rows[keys[j]].ts
        invariant forall i, k :: 0 <= i < |keys| && k in todo ==> rows[keys[i]].ts <= rows[k].ts
      {
        var k := Oldest(rows, todo);
        keys := keys + [k];
        todo := todo - {k};
      }
    }

    static method Oldest(t: Table, ks: set<Key>) returns (k: Key)
      requires ks != {} && ks <= t.Keys
      ensures k in ks && forall l :: l in ks ==> t[k].ts <= t[l].ts
    {
      k :| k in ks;
      var rest := ks - {k};
      while rest != {}
        invariant k in ks && rest <= ks
        invariant forall l :: l in ks - rest ==> t[k].ts <= t[l].ts
      {
        var l :| l in rest;
        if t[l].ts < t[k].ts {
          k := l;
        }
        rest := rest - {l};
      }
    }
  }
}
