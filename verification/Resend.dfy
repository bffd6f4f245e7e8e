/** The resender: it re-sends the events of old outbox rows and leaves the rows alone, since they
    go when the events come back. */
module Resend {
  import opened Common
  import opened Outbox
  import W = OutboxRuns

  function RowEvents(t: Table, keys: seq<Key>): (events: seq<Event>)
    requires forall k :: k in keys ==> k in t
  {
    seq(|keys|, i requires 0 <= i < |keys| => EventOf(FromRow(keys[i], t[keys[i]])))
  }

  class Resender {
    /** The loop over the stream of unseen rows. Row `i` of the stream may fail to load, and the
        `i`-th send may fail; either ends the pass. */
    static method Process(stream: seq<Result<Entry, string>>, accepts: nat -> bool)
      returns (sent: seq<Event>, outcome: Result<nat, string>)
      ensures |sent| <= |stream|
      ensures forall i :: 0 <= i < |sent| ==>
        stream[i].Ok? && accepts(i) && sent[i] == EventOf(stream[i].value)
      ensures outcome.Ok? <==> forall i: nat :: i < |stream| ==> stream[i].Ok? && accepts(i)
      ensures outcome.Ok? ==> outcome.value == |sent| == |stream|
      ensures outcome.Err? ==>
        |sent| < |stream| && (stream[|sent|].Err? || !accepts(|sent|))
    {
      sent := [];
      var n: nat := 0;
      while n < |stream|
        invariant n <= |stream| && |sent| == n
        invariant forall i :: 0 <= i < n ==>
          stream[i].Ok? && accepts(i) && sent[i] == EventOf(stream[i].value)
      {
        match stream[n] {
          case Err(err) => return sent, Err(err);
          case Ok(entry) =>
            if !accepts(n) {
              return sent, Err("Failed to send event");
            }
            sent := sent + [EventOf(entry)];
        }
        n := n + 1;
      }
      outcome := Ok(n);
    }

    /** A whole pass. It sends the events of the oldest rows, in the order of their timestamps, up
        to the first failure, and changes no row. */
    static method Pass(table: OutboxTable, now: int, before: int, loads: nat -> bool, accepts: nat -> bool)
      returns (keys: seq<Key>, sent: seq<Event>, outcome: Result<nat, string>)
      ensures IsUnread(table.rows, now - before, keys)
      ensures sent <= RowEvents(table.rows, keys)
      ensures outcome.Ok? <==> sent == RowEvents(table.rows, keys)
      ensures outcome.Ok? <==> forall i: nat :: i < |keys| ==> loads(i) && accepts(i)
    {
      keys := table.FetchUnread(now, before);
      var rows := table.rows;
      var stream := seq(|keys|, i requires 0 <= i < |keys| =>
        if loads(i) then Ok(FromRow(keys[i], rows[keys[i]])) else Err("Failed to retrieve row"));
      sent, outcome := Process(stream, accepts);
      assert sent == RowEvents(rows, keys)[..|sent|];
      assert forall i: nat :: i < |keys| ==> (stream[i].Ok? <==> loads(i));
    }
  }

  /** The table after a sequence of `mark_seen` calls. */
  function MarkAll(t: Table, events: seq<Event>): Table {
    if events == [] then t
    else MarkSeenIn(MarkAll(t, events[..|events| - 1]), EntryOf(events[|events| - 1]))
  }

  predicate CoveredBy(k: Key, r: Row, events: seq<Event>) {
    exists i :: 0 <= i < |events| && Covers(EntryOf(events[i]), k, r)
  }

  /** `mark_seen` calls keep exactly the rows that no event of the sequence covers ... */
  lemma {:induction false} MarkAllKeepsUncovered(t: Table, events: seq<Event>)
    ensures MarkAll(t, events) == map k | k in t && !CoveredBy(k, t[k], events) :: t[k]
  {
    if events == [] {
    } else {
      var n := |events| - 1;
      var rest := events[..n];
      MarkAllKeepsUncovered(t, rest);
      forall k | k in t
        ensures CoveredBy(k, t[k], events) <==> CoveredBy(k, t[k], rest) || Covers(EntryOf(events[n]), k, t[k])
      {
        if CoveredBy(k, t[k], rest) {
          var i :| 0 <= i < n && Covers(EntryOf(rest[i]), k, t[k]);
          assert Covers(EntryOf(events[i]), k, t[k]);
        }
      }
    }
  }

  /** ... so the outcome depends on the set of events alone, not on order or repetition. */
  lemma MarkAllIgnoresOrder(t: Table, events: seq<Event>, other: seq<Event>)
    requires forall ev :: ev in events <==> ev in other
    ensures MarkAll(t, events) == MarkAll(t, other)
  {
    MarkAllKeepsUncovered(t, events);
    MarkAllKeepsUncovered(t, other);
    forall k | k in t
      ensures CoveredBy(k, t[k], events) <==> CoveredBy(k, t[k], other)
    {
      SameCover(k, t[k], events, other);
      SameCover(k, t[k], other, events);
    }
  }

  lemma SameCover(k: Key, r: Row, events: seq<Event>, other: seq<Event>)
    requires forall ev :: ev in events ==> ev in other
    ensures CoveredBy(k, r, events) ==> CoveredBy(k, r, other)
  {
    if CoveredBy(k, r, events) {
      var i :| 0 <= i < |events| && Covers(EntryOf(events[i]), k, r);
      assert events[i] in other;
      var j :| 0 <= j < |other| && other[j] == events[i];
      assert Covers(EntryOf(other[j]), k, r);
    }
  }

  /** Delivering what a pass sent, in any order and with repetitions, removes exactly the rows
      whose events were sent. */
  lemma DeliveryRemovesSentRows(t: Table, keys: seq<Key>, sent: seq<Event>, delivered: seq<Event>)
    requires Distinct(keys) && forall k :: k in keys ==> k in t
    requires sent <= RowEvents(t, keys)
    requires forall ev :: ev in delivered <==> ev in sent
    ensures MarkAll(t, delivered) == t - (set k | k in keys[..|sent|])
  {
    MarkAllIgnoresOrder(t, delivered, sent);
    MarkAllKeepsUncovered(t, sent);
    forall k | k in t
      ensures CoveredBy(k, t[k], sent) <==> k in keys[..|sent|]
    {
      if k in keys[..|sent|] {
        var i :| 0 <= i < |sent| && keys[i] == k;
        assert Covers(EntryOf(sent[i]), k, t[k]);
      }
    }
  }

  /** Once creates stop, one pass without failure over a table whose rows are all past the cutoff,
      followed by delivery of at least what was sent, empties the outbox. */
  lemma PassDrainsOutbox(t: Table, cutoff: int, keys: seq<Key>, delivered: seq<Event>)
    requires IsUnread(t, cutoff, keys) && forall k :: k in t ==> t[k].ts < cutoff
    requires forall ev :: ev in RowEvents(t, keys) ==> ev in delivered
    ensures MarkAll(t, delivered) == map[]
  {
    MarkAllKeepsUncovered(t, delivered);
    forall k | k in t
      ensures CoveredBy(k, t[k], delivered)
    {
      assert k in keys;
      var i :| 0 <= i < |keys| && keys[i] == k;
      var ev := RowEvents(t, keys)[i];
      assert ev in delivered;
      var j :| 0 <= j < |delivered| && delivered[j] == ev;
      assert Covers(EntryOf(delivered[j]), k, t[k]);
    }
  }

  /** The events of different rows differ. */
  lemma RowEventsDiffer(k: Key, r: Row, l: Key, q: Row)
    requires EventOf(FromRow(k, r)) == EventOf(FromRow(l, q))
    ensures k == l
  {
    assert KeyOf(EntryOf(EventOf(FromRow(k, r)))) == k;
    assert KeyOf(EntryOf(EventOf(FromRow(l, q)))) == l;
  }

  /** In every state of a run, a pass at time `now` has the event of a row among those it sends exactly if the create
      that wrote the row is more than `before` old. */
  lemma PassSendsOldRows(steps: seq<W.Step>, now: int, before: int, keys: seq<Key>, k: Key)
    requires IsUnread(W.Run(steps).rows, now - before, keys) && k in W.Run(steps).rows
    ensures W.WrittenAt(steps, k).Some?
    ensures var rows := W.Run(steps).rows;
      EventOf(FromRow(k, rows[k])) in RowEvents(rows, keys) <==> now - W.WrittenAt(steps, k).value > before
  {
    var rows := W.Run(steps).rows;
    W.RowsKeepTheirTime(steps, k);
    var ev := EventOf(FromRow(k, rows[k]));
    if ev in RowEvents(rows, keys) {
      var i :| 0 <= i < |keys| && RowEvents(rows, keys)[i] == ev;
      RowEventsDiffer(keys[i], rows[keys[i]], k, rows[k]);
      assert k in keys;
    }
    if k in keys {
      var i :| 0 <= i < |keys| && keys[i] == k;
      assert RowEvents(rows, keys)[i] == ev;
    }
  }
}
