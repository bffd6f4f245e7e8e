/** The outbox protocol as a state machine: commits, publishes, resends and deliveries in any
    order, where Kafka may lose, repeat, delay and reorder what was published. */
module OutboxRuns {
  import opened Common
  import opened Outbox

  /** `wire` holds every event that was handed to Kafka and may still arrive, any number of times;
      `seen` the changes `mark_seen` was called with; `created` the history of `create` calls. */
  datatype State = State(rows: Table, wire: set<Event>, seen: set<Change>, created: seq<Entry>)

  const INITIAL := State(map[], {}, {}, [])

  datatype Step =
    | Commit(entry: Entry, now: int)  // a transaction that calls `create`
    | Publish(entry: Entry)           // the service sends its event after the commit
    | Resend(key: Key)                // the resender sends the event of a row
    | Deliver(event: Event)           // the consumer gets an event and calls `mark_seen`

  /** A step that is not possible, such as the delivery of an event nobody sent, changes nothing,
      so every sequence of steps is a run. */
  function Apply(s: State, step: Step): State {
    match step
    case Commit(e, now) => s.(rows := CreateIn(s.rows, e, now), created := s.created + [e])
    case Publish(e) => if e in s.created then s.(wire := s.wire + {EventOf(e)}) else s
    case Resend(k) => if k in s.rows then s.(wire := s.wire + {EventOf(FromRow(k, s.rows[k]))}) else s
    case Deliver(ev) =>
      if ev in s.wire
      then s.(rows := MarkSeenIn(s.rows, EntryOf(ev)), seen := s.seen + {ChangeOf(EntryOf(ev))})
      else s
  }

  /** The state after a run. */
  function Run(steps: seq<Step>): State {
    if steps == [] then INITIAL
    else Apply(Run(steps[..|steps| - 1]), steps[|steps| - 1])
  }

  /** The last `create` call for a key, if any. */
  function LastCreate(created: seq<Entry>, k: Key): Option<Entry> {
    if created == [] then None
    else
      var e := created[|created| - 1];
      if KeyOf(e) == k then Some(e) else LastCreate(created[..|created| - 1], k)
  }

  /** For one key: revisions never decrease while the uid stays or comes back, and all of them
      are stored without wrap-around. */
  ghost predicate MonotonePerUid(created: seq<Entry>, k: Key) {
    && (forall i :: 0 <= i < |created| && KeyOf(created[i]) == k ==> created[i].revision < TWO_63)
    && (forall i, j :: 0 <= i < j < |created| && KeyOf(created[i]) == KeyOf(created[j]) == k ==>
          created[i].uid == created[j].uid ==> created[i].revision <= created[j].revision)
  }

  /** What holds of one key in every state of a run. */
  ghost predicate Inv(s: State, k: Key) {
    // nothing is on the wire, or was seen, that was not created
    && (forall ev :: ev in s.wire && KeyOf(EntryOf(ev)) == k ==> IsCreated(s, ChangeOf(EntryOf(ev))))
    && (forall c :: c in s.seen && c.key == k ==> IsCreated(s, c))
    // the row is the most recent create
    && (k in s.rows ==> LastCreate(s.created, k).Some?)
    && (k in s.rows ==> ChangeOfRow(k, s.rows[k]) == ChangeOf(LastCreate(s.created, k).value))
    // and if there is none, then the most recent create came back from Kafka
    && (LastCreate(s.created, k).Some? && k !in s.rows ==> ChangeOf(LastCreate(s.created, k).value) in s.seen)
  }

  ghost predicate IsCreated(s: State, c: Change) {
    exists i :: 0 <= i < |s.created| && ChangeOf(s.created[i]) == c
  }

  ghost predicate IsLast(created: seq<Entry>, i: int, k: Key) {
    && 0 <= i < |created|
    && forall j :: i < j < |created| ==> KeyOf(created[j]) != k
  }

  lemma {:induction false} LastCreateIsCreated(created: seq<Entry>, k: Key)
    ensures match LastCreate(created, k)
      case None => forall i :: 0 <= i < |created| ==> KeyOf(created[i]) != k
      case Some(e) => KeyOf(e) == k && (exists i :: IsLast(created, i, k) && created[i] == e)
  {
    if created != [] {
      var n := |created| - 1;
      LastCreateIsCreated(created[..n], k);
      if KeyOf(created[n]) == k {
        assert IsLast(created, n, k);
      } else if LastCreate(created, k).Some? {
        var i :| IsLast(created[..n], i, k) && created[..n][i] == LastCreate(created, k).value;
        LastExtends(created, n, i, k);
      } else {
        forall i | 0 <= i < |created| ensures KeyOf(created[i]) != k {
          assert i < n ==> created[i] == created[..n][i];
        }
      }
    }
  }

  lemma LastExtends(created: seq<Entry>, n: nat, i: int, k: Key)
    requires n == |created| - 1 && KeyOf(created[n]) != k && IsLast(created[..n], i, k)
    ensures IsLast(created, i, k) && created[i] == created[..n][i]
  {
    forall j | i < j < |created| ensures KeyOf(created[j]) != k {
      assert j < n ==> created[j] == created[..n][j];
    }
  }

  /** The most recent create bounds every change of its uid. */
  lemma LastCreateBounds(s: State, k: Key, c: Change)
    requires MonotonePerUid(s.created, k) && IsCreated(s, c) && c.key == k
    ensures LastCreate(s.created, k).Some?
    ensures var last := LastCreate(s.created, k).value;
            last.revision < TWO_63 && c.revision < TWO_63
            && (last.uid == c.uid ==> c.revision <= last.revision)
  {
    LastCreateIsCreated(s.created, k);
    var i :| 0 <= i < |s.created| && ChangeOf(s.created[i]) == c;
    var j :| IsLast(s.created, j, k) && s.created[j] == LastCreate(s.created, k).value;
    EarlierIsBounded(s.created, k, i, j);
  }

  lemma EarlierIsBounded(created: seq<Entry>, k: Key, i: int, j: int)
    requires MonotonePerUid(created, k) && IsLast(created, j, k) && 0 <= i < |created|
    requires KeyOf(created[i]) == KeyOf(created[j]) == k
    ensures created[i].revision < TWO_63 && created[j].revision < TWO_63
    ensures created[i].uid == created[j].uid ==> created[i].revision <= created[j].revision
  {
    assert i <= j;
  }

  lemma StepKeepsInv(s: State, step: Step, k: Key)
    requires Inv(s, k)
    requires MonotonePerUid(Apply(s, step).created, k)
    ensures MonotonePerUid(s.created, k)
    ensures Inv(Apply(s, step), k)
  {
    var s' := Apply(s, step);
    match step
    case Commit(e, now) => CommitKeepsInv(s, e, now, k);
    case Publish(e) =>
      if e in s.created {
        var i :| 0 <= i < |s.created| && s.created[i] == e;
        assert ChangeOf(s'.created[i]) == ChangeOf(EntryOf(EventOf(e)));
      }
      KeepsCreated(s, s', k);
    case Resend(l) =>
      if l == k && k in s.rows {
        LastCreateIsCreated(s.created, k);
        assert ChangeOf(EntryOf(EventOf(FromRow(k, s.rows[k])))) == ChangeOfRow(k, s.rows[k]);
      }
      KeepsCreated(s, s', k);
    case Deliver(ev) =>
      if k in s.rows && k !in s'.rows {
        DeliveryMatches(s, ev, k);
      }
      KeepsCreated(s, s', k);
  }

  lemma KeepsCreated(s: State, s': State, k: Key)
    requires Inv(s, k) && s.created <= s'.created
    ensures forall ev :: ev in s.wire && KeyOf(EntryOf(ev)) == k ==> IsCreated(s', ChangeOf(EntryOf(ev)))
    ensures forall c :: c in s.seen && c.key == k ==> IsCreated(s', c)
  {
    forall c | c in s.seen && c.key == k ensures IsCreated(s', c) {
      var i :| 0 <= i < |s.created| && ChangeOf(s.created[i]) == c;
      assert s'.created[i] == s.created[i];
    }
    forall ev | ev in s.wire && KeyOf(EntryOf(ev)) == k
      ensures IsCreated(s', ChangeOf(EntryOf(ev)))
    {
      var i :| 0 <= i < |s.created| && ChangeOf(s.created[i]) == ChangeOf(EntryOf(ev));
      assert s'.created[i] == s.created[i];
    }
  }

  lemma CommitKeepsInv(s: State, e: Entry, now: int, k: Key)
    requires Inv(s, k) && MonotonePerUid(s.created + [e], k)
    ensures MonotonePerUid(s.created, k)
    ensures Inv(Apply(s, Commit(e, now)), k)
  {
    var s' := Apply(s, Commit(e, now));
    var n := |s.created|;
    assert forall i :: 0 <= i < n ==> s'.created[i] == s.created[i];
    assert s'.created[n] == e && s'.created[..n] == s.created;
    KeepsCreated(s, s', k);
    LastCreateIsCreated(s.created, k);
  }

  /** A row goes only because of an event for exactly its uid and revision. */
  lemma DeliveryMatches(s: State, ev: Event, k: Key)
    requires Inv(s, k) && MonotonePerUid(s.created, k) && ev in s.wire
    requires k in s.rows && k !in MarkSeenIn(s.rows, EntryOf(ev))
    ensures ChangeOf(EntryOf(ev)) == ChangeOfRow(k, s.rows[k])
  {
    LastCreateBounds(s, k, ChangeOf(EntryOf(ev)));
  }

  lemma {:induction false} RunKeepsInv(steps: seq<Step>, k: Key)
    requires MonotonePerUid(Run(steps).created, k)
    ensures Inv(Run(steps), k)
  {
    if steps != [] {
      var before := Run(steps[..|steps| - 1]);
      var after := Apply(before, steps[|steps| - 1]);
      assert before.created <= after.created;
      assert forall i :: 0 <= i < |before.created| ==> before.created[i] == after.created[i];
      RunKeepsInv(steps[..|steps| - 1], k);
      StepKeepsInv(before, steps[|steps| - 1], k);
    }
  }

  /** The row of the key, and everything on the wire for it, was created. This needs no order of revisions. */
  ghost predicate FromHistory(s: State, k: Key) {
    && (forall ev :: ev in s.wire && KeyOf(EntryOf(ev)) == k ==> IsCreated(s, ChangeOf(EntryOf(ev))))
    && (k in s.rows ==> IsCreated(s, ChangeOfRow(k, s.rows[k])))
  }

  lemma CreatedRemains(s: State, s': State, c: Change)
    requires IsCreated(s, c) && s.created <= s'.created
    ensures IsCreated(s', c)
  {
    var i :| 0 <= i < |s.created| && ChangeOf(s.created[i]) == c;
    assert s'.created[i] == s.created[i];
  }

  lemma StepKeepsHistory(s: State, step: Step, k: Key)
    requires FromHistory(s, k)
    ensures FromHistory(Apply(s, step), k)
  {
    var s' := Apply(s, step);
    assert s.created <= s'.created;
    forall c | IsCreated(s, c) ensures IsCreated(s', c) {
      CreatedRemains(s, s', c);
    }
    match step
    case Commit(e, now) =>
      assert s'.created[|s.created|] == e;
      CreateTakesEffect(s.rows, e, now);
    case Publish(e) =>
      if e in s.created {
        var i :| 0 <= i < |s.created| && s.created[i] == e;
        assert ChangeOf(s'.created[i]) == ChangeOf(EntryOf(EventOf(e)));
      }
    case Resend(l) =>
      if l in s.rows {
        assert ChangeOf(EntryOf(EventOf(FromRow(l, s.rows[l])))) == ChangeOfRow(l, s.rows[l]);
      }
    case Deliver(ev) =>
  }

  /** No change is lost: in every run, the most recent create of a key is still in the outbox, and
      so will be resent, or it came back from Kafka. */
  lemma {:induction false} NoChangeIsLost(steps: seq<Step>, k: Key)
    requires MonotonePerUid(Run(steps).created, k)
    requires LastCreate(Run(steps).created, k).Some?
    ensures var s := Run(steps); var last := ChangeOf(LastCreate(s.created, k).value);
            (k in s.rows && ChangeOfRow(k, s.rows[k]) == last) || (k !in s.rows && last in s.seen)
  {
    RunKeepsInv(steps, k);
  }

  /** No stale, repeated or foreign event hides a newer change: whatever a run did before, a step
      removes a row only if it delivers exactly the change of that row. */
  lemma {:induction false} RowsLeaveOnlyWhenSeen(steps: seq<Step>, step: Step, k: Key)
    requires MonotonePerUid(Run(steps).created, k)
    requires k in Run(steps).rows && k !in Apply(Run(steps), step).rows
    ensures step.Deliver? && ChangeOf(EntryOf(step.event)) == ChangeOfRow(k, Run(steps).rows[k])
  {
    RunKeepsInv(steps, k);
    if step.Deliver? {
      DeliveryMatches(Run(steps), step.event, k);
    }
  }

  /** The create is written: there is no row for its key, or one with a smaller revision (as stored) or another uid. */
  predicate IsWritten(t: Table, e: Entry) {
    KeyOf(e) !in t || t[KeyOf(e)].revision < AsI64(e.revision) || t[KeyOf(e)].uid != e.uid
  }

  /** A row has the time of the create that wrote it, and all other rows keep theirs. */
  lemma RowsAreStamped(t: Table, e: Entry, now: int)
    ensures var k := KeyOf(e); var t' := CreateIn(t, e, now);
      && k in t' && (if IsWritten(t, e) then t'[k].ts == now else t'[k] == t[k])
      && (forall l :: l != k ==> (l in t' <==> l in t) && (l in t ==> t'[l] == t[l]))
  {
  }

  /** When the row of a key was last written during a run. */
  function WrittenAt(steps: seq<Step>, k: Key): Option<int> {
    if steps == [] then None
    else
      var n := |steps| - 1;
      match steps[n]
      case Commit(e, now) =>
        if KeyOf(e) == k && IsWritten(Run(steps[..n]).rows, e) then Some(now) else WrittenAt(steps[..n], k)
      case _ => WrittenAt(steps[..n], k)
  }

  lemma {:induction false} RowsKeepTheirTime(steps: seq<Step>, k: Key)
    requires k in Run(steps).rows
    ensures WrittenAt(steps, k) == Some(Run(steps).rows[k].ts)
  {
    var n := |steps| - 1;
    var before := Run(steps[..n]);
    match steps[n]
    case Commit(e, now) =>
      RowsAreStamped(before.rows, e, now);
      if k in before.rows {
        RowsKeepTheirTime(steps[..n], k);
      }
    case _ => RowsKeepTheirTime(steps[..n], k);
  }

  /** Which single `create` calls take effect: all but those that find a row of their own uid
      with a revision (as stored) that is no smaller, unless it is the very same change. */
  lemma CreateTakesEffect(t: Table, e: Entry, now: int)
    ensures var k := KeyOf(e); var t' := CreateIn(t, e, now);
      && k in t'
      && (ChangeOfRow(k, t'[k]) == ChangeOf(e) <==>
            !(k in t && t[k].uid == e.uid && AsI64(e.revision) < t[k].revision))
      && (forall l :: l != k ==> (l in t' <==> l in t) && (l in t ==> t'[l] == t[l]))
  {
  }

  /** A row keeps the instance of its first insert, whatever is created after it. */
  lemma InstanceIsNotUpdated(t: Table, e: Entry, now: int, k: Key)
    requires k in t
    ensures k in CreateIn(t, e, now) && CreateIn(t, e, now)[k].instance == t[k].instance
    ensures k == KeyOf(e) && Supersedes(e, t[k]) ==> CreateIn(t, e, now)[k] == RowOf(e, now).(instance := t[k].instance)
  {
  }

  /** Without monotone revisions the guarantee fails. An application that is deleted and created
      again under the same name restarts its revisions, while its update events carry the nil
      uid in every incarnation. A late event of the first life then removes the row of
      the second, whose change no consumer has seen. */
  lemma ReusedUidLosesChange(first: Entry, second: Entry)
    requires KeyOf(first) == KeyOf(second) && first.uid == second.uid
    requires second.revision < first.revision < TWO_63
    ensures
      var s := Run([Commit(first, 0), Publish(first), Deliver(EventOf(first)),
                    Commit(second, 1), Deliver(EventOf(first))]);
      && LastCreate(s.created, KeyOf(second)) == Some(second)
      && KeyOf(second) !in s.rows && ChangeOf(second) !in s.seen
  {
    var k := KeyOf(first);
    var steps := [Commit(first, 0), Publish(first), Deliver(EventOf(first)),
                  Commit(second, 1), Deliver(EventOf(first))];
    assert steps[..4][..3][..2][..1] == [steps[0]] && [steps[0]][..0] == [];
    var s1 := Apply(INITIAL, steps[0]);
    var s2 := Apply(s1, steps[1]);
    var s3 := Apply(s2, steps[2]);
    assert s3.rows == map[] && s3.seen == {ChangeOf(first)} && EventOf(first) in s3.wire;
    var s4 := Apply(s3, steps[3]);
    var s5 := Apply(s4, steps[4]);
    assert s5.rows == map[] && s5.seen == {ChangeOf(first)};
    assert Run(steps[..4][..3][..2][..1]) == s1;
    assert Run(steps[..4][..3][..2]) == s2;
    assert Run(steps[..4][..3]) == s3;
    assert Run(steps[..4]) == s4;
    assert Run(steps) == s5;
    assert s5.created == [first, second];
  }
}
