/** The consumer of registry events: retry, acknowledge, and resume from the committed offset. */
module Consumer {

  type Partition = nat

  type Offsets = map<Partition, nat>

  /** A partition without an offset is read from its earliest event. */
  function At(m: Offsets, p: Partition): nat {
    if p in m then m[p] else 0
  }

  type Position = (Partition, nat)

  /** Where the loop is: waiting for an event, retrying its handler, about to acknowledge, or gone. */
  datatype Phase =
    | Idle
    | Handling(p: Partition, o: nat, cnt: nat)
    | Handled(p: Partition, o: nat)
    | Stopped

  /** `committed` is what the broker knows, `stored` what was acknowledged, `position` what is fetched next.
      `handled` is the history of successful handler calls, and `calls` counts the calls since the last start. */
  datatype State = State(
    committed: Offsets,
    stored: Offsets,
    position: Offsets,
    phase: Phase,
    handled: set<Position>,
    calls: map<Position, nat>)

  const INITIAL := State(map[], map[], map[], Idle, {}, map[])

  datatype Step =
    | Fetch(p: Partition, parses: bool)  // the stream yields the next message of a partition
    | Fail                               // the stream yields an error, or ends
    | Handle(ok: bool)                   // one call of the handler
    | Ack(ok: bool)                      // the offset is stored, or that fails
    | Commit(p: Partition)               // a stored offset reaches the broker, in the background
    | Restart                            // the process starts again, after a failure or a crash at any point

  function Calls(s: State, x: Position): nat {
    if x in s.calls then s.calls[x] else 0
  }

  /** A step that is not possible changes nothing, so every sequence of steps is a run. */
  function Apply(s: State, step: Step): State {
    match step
    case Fetch(p, parses) =>
      if s.phase != Idle then s
      else
        var o := At(s.position, p);
        s.(position := s.position[p := o + 1], phase := if parses then Handling(p, o, 0) else Stopped)
    case Fail => if s.phase == Idle then s.(phase := Stopped) else s
    case Handle(ok) =>
      if !s.phase.Handling? then s
      else
        var x := (s.phase.p, s.phase.o);
        s.(
          calls := s.calls[x := Calls(s, x) + 1],
          handled := if ok then s.handled + {x} else s.handled,
          phase :=
            if ok then Handled(x.0, x.1)
            else if s.phase.cnt > 10 then Stopped
            else s.phase.(cnt := s.phase.cnt + 1))
    case Ack(ok) =>
      if !s.phase.Handled? then s
      else if ok then s.(stored := s.stored[s.phase.p := s.phase.o + 1], phase := Idle)
      else s.(phase := Stopped)
    case Commit(p) => s.(committed := s.committed[p := At(s.stored, p)])
    case Restart => s.(stored := s.committed, position := s.committed, phase := Idle, calls := map[])
  }

  /** The state after a run from `s`. */
  function Exec(s: State, steps: seq<Step>): State {
    if steps == [] then s else Apply(Exec(s, steps[..|steps| - 1]), steps[|steps| - 1])
  }

  // ----- what every run keeps -----

  /** The offset before which everything fetched was acknowledged. */
  function Expected(s: State, p: Partition): nat {
    if (s.phase.Handling? || s.phase.Handled?) && s.phase.p == p then s.phase.o + 1 else At(s.stored, p)
  }

  ghost predicate OffsetsInv(s: State) {
    && (forall p: Partition :: At(s.committed, p) <= At(s.stored, p) <= At(s.position, p))
    && (s.phase != Stopped ==> forall p: Partition :: At(s.position, p) == Expected(s, p))
    && (s.phase.Handling? || s.phase.Handled? ==> At(s.stored, s.phase.p) == s.phase.o)
  }

  ghost predicate HandledInv(s: State) {
    && (forall p: Partition, o: nat :: o < At(s.stored, p) ==> (p, o) in s.handled)
    && (forall p: Partition, o: nat, o': nat :: (p, o) in s.handled && o' < o ==> (p, o') in s.handled)
    && (s.phase.Handled? ==> (s.phase.p, s.phase.o) in s.handled)
  }

  ghost predicate CallsInv(s: State) {
    && (forall p: Partition, o: nat :: Calls(s, (p, o)) <= 12)
    && (forall p: Partition, o: nat :: o >= At(s.position, p) ==> Calls(s, (p, o)) == 0)
    && (s.phase.Handling? ==> Calls(s, (s.phase.p, s.phase.o)) == s.phase.cnt <= 11)
  }

  ghost predicate Inv(s: State) {
    OffsetsInv(s) && HandledInv(s) && CallsInv(s)
  }

  lemma StepKeepsOffsets(s: State, step: Step)
    requires OffsetsInv(s)
    ensures OffsetsInv(Apply(s, step))
  {
    match step
    case Fetch(p, parses) => FetchKeepsOffsets(s, p, parses);
    case Ack(ok) => AckKeepsOffsets(s, ok);
    case _ =>
  }

  lemma FetchKeepsOffsets(s: State, p: Partition, parses: bool)
    requires OffsetsInv(s)
    ensures OffsetsInv(Apply(s, Fetch(p, parses)))
  {
    var s' := Apply(s, Fetch(p, parses));
    if s.phase == Idle {
      forall q: Partition
        ensures At(s.committed, q) <= At(s.stored, q) <= At(s'.position, q)
        ensures s'.phase != Stopped ==> At(s'.position, q) == Expected(s', q)
      {
        assert At(s.position, q) == Expected(s, q);
      }
    }
  }

  lemma AckKeepsOffsets(s: State, ok: bool)
    requires OffsetsInv(s)
    ensures OffsetsInv(Apply(s, Ack(ok)))
  {
    var s' := Apply(s, Ack(ok));
    if s.phase.Handled? {
      forall q: Partition
        ensures At(s.committed, q) <= At(s'.stored, q) <= At(s.position, q)
        ensures s'.phase != Stopped ==> At(s.position, q) == Expected(s', q)
      {
        assert At(s.position, q) == Expected(s, q) && At(s.committed, q) <= At(s.stored, q);
      }
    }
  }

  lemma StepKeepsHandled(s: State, step: Step)
    requires OffsetsInv(s) && HandledInv(s)
    ensures HandledInv(Apply(s, step))
  {
  }

  lemma StepKeepsCalls(s: State, step: Step)
    requires OffsetsInv(s) && CallsInv(s)
    ensures CallsInv(Apply(s, step))
  {
  }

  lemma {:induction false} RunKeepsInv(steps: seq<Step>)
    ensures Inv(Exec(INITIAL, steps))
  {
    if steps != [] {
      var s, step := Exec(INITIAL, steps[..|steps| - 1]), steps[|steps| - 1];
      RunKeepsInv(steps[..|steps| - 1]);
      StepKeepsOffsets(s, step);
      StepKeepsHandled(s, step);
      StepKeepsCalls(s, step);
    }
  }

  lemma {:induction false} ExecConcat(s: State, a: seq<Step>, b: seq<Step>)
    ensures Exec(s, a + b) == Exec(Exec(s, a), b)
  {
    if b == [] {
      assert a + b == a;
    } else {
      assert (a + b)[..|a + b| - 1] == a + b[..|b| - 1];
      ExecConcat(s, a, b[..|b| - 1]);
    }
  }

  lemma ExecNext(s: State, steps: seq<Step>, step: Step)
    ensures Exec(s, steps + [step]) == Apply(Exec(s, steps), step)
  {
    assert (steps + [step])[..|steps|] == steps;
  }

  // ----- what this means -----

  /** The consumer never skips: in every run, with failures, crashes and restarts anywhere, each event below the
      stored offset, and so below the committed one that a restart resumes from, was handled successfully. */
  lemma NothingIsSkipped(steps: seq<Step>, p: Partition, o: nat)
    ensures var s := Exec(INITIAL, steps);
      o < At(s.committed, p) || o < At(s.stored, p) ==> (p, o) in s.handled
  {
    RunKeepsInv(steps);
  }

  /** No event gets more than twelve handler calls between two starts. */
  lemma AtMostTwelveCalls(steps: seq<Step>, x: Position)
    ensures Calls(Exec(INITIAL, steps), x) <= 12
  {
    RunKeepsInv(steps);
    assert x == (x.0, x.1);
  }

  /** A restart resumes where the last commit was. */
  lemma RestartResumes(s: State, p: Partition, q: Partition)
    ensures var s' := Apply(Apply(s, Commit(p)), Restart);
      At(s'.position, q) == (if q == p then At(s.stored, p) else At(s.committed, q)) && s'.phase == Idle
  {
  }

  /** And it does get twelve: a handler that keeps failing is called again until the twelfth failure stops the run. */
  lemma {:induction false} RetriesUntilTwelve(s: State, failures: seq<Step>)
    requires s.phase.Handling? && s.phase.cnt == 0 && |failures| <= 12
    requires forall i :: 0 <= i < |failures| ==> failures[i] == Handle(false)
    ensures var s' := Exec(s, failures); var x := (s.phase.p, s.phase.o);
      && s'.phase == (if |failures| < 12 then Handling(s.phase.p, s.phase.o, |failures|) else Stopped)
      && Calls(s', x) == Calls(s, x) + |failures| && s'.stored == s.stored
  {
    if failures != [] {
      RetriesUntilTwelve(s, failures[..|failures| - 1]);
    }
  }

  /** The cost of never skipping: an event that was not handled successfully holds back its partition. Nothing
      behind it was handled, no matter how often the consumer started again. */
  lemma UnhandledEventBlocks(steps: seq<Step>, p: Partition, o: nat, o': nat)
    requires (p, o) !in Exec(INITIAL, steps).handled && o <= o'
    ensures (p, o') !in Exec(INITIAL, steps).handled
    ensures At(Exec(INITIAL, steps).stored, p) <= o
  {
    RunKeepsInv(steps);
  }

  // ----- the loop -----

  datatype Poll = Message(p: Partition, parses: bool) | NoMessage

  /** The handler's calls for the `i`-th event succeed within the twelve that it gets. */
  predicate Handles(succeeds: (nat, nat) -> bool, i: nat) {
    exists k: nat :: k <= 11 && succeeds(i, k)
  }

  predicate Passes(poll: Poll, i: nat, succeeds: (nat, nat) -> bool, acks: nat -> bool) {
    poll.Message? && poll.parses && Handles(succeeds, i) && acks(i)
  }

  class EventStream {
    var committed: Offsets
    var stored: Offsets
    var position: Offsets
    ghost var state: State

    ghost predicate Valid()
      reads this
    {
      state.committed == committed && state.stored == stored && state.position == position
    }

    /** The stream of a process that starts, after what earlier ones committed and handled. */
    constructor (s: State)
      ensures Valid() && state == Apply(s, Restart)
    {
      committed, stored, position, state := s.committed, s.committed, s.committed, Apply(s, Restart);
    }

    /** The retry loop around the handler, which changes no offset. */
    method HandleEvent(i: nat, succeeds: (nat, nat) -> bool) returns (ok: bool, ghost steps: seq<Step>)
      requires Valid() && state.phase.Handling? && state.phase.cnt == 0
      modifies this`state
      ensures Valid() && state == Exec(old(state), steps)
      ensures ok <==> Handles(succeeds, i)
      ensures state.phase == if ok then Handled(old(state).phase.p, old(state).phase.o) else Stopped
    {
      steps := [];
      var cnt: nat := 0;
      while !succeeds(i, cnt)
        invariant Valid() && state == Exec(old(state), steps)
        invariant cnt <= 11 && state.phase == old(state).phase.(cnt := cnt)
        invariant forall k: nat :: k < cnt ==> !succeeds(i, k)
        decreases 11 - cnt
      {
        ExecNext(old(state), steps, Handle(false));
        state, steps := Apply(state, Handle(false)), steps + [Handle(false)];
        if cnt > 10 {
          return false, steps;
        }
        cnt := cnt + 1;
      }
      ExecNext(old(state), steps, Handle(true));
      state, steps := Apply(state, Handle(true)), steps + [Handle(true)];
      ok := true;
    }

    /** The stream yields a message, an error, or its end. */
    method Fetch(poll: Poll) returns (ok: bool, ghost steps: seq<Step>)
      requires Valid() && state.phase == Idle
      modifies this`state, this`position
      ensures Valid() && state == Exec(old(state), steps)
      ensures ok <==> poll.Message? && poll.parses
      ensures state.phase == if ok then Handling(poll.p, At(old(position), poll.p), 0) else Stopped
    {
      ghost var step := if poll.NoMessage? then Fail else Step.Fetch(poll.p, poll.parses);
      ExecNext(state, [], step);
      state, steps := Apply(state, step), [] + [step];
      ok := false;
      if poll.Message? {
        position := position[poll.p := At(position, poll.p) + 1];
        ok := poll.parses;
      }
    }

    /** Stores the offset after the event, if that works. */
    method Acknowledge(p: Partition, o: nat, works: bool) returns (ghost steps: seq<Step>)
      requires Valid() && state.phase == Handled(p, o)
      modifies this`state, this`stored
      ensures Valid() && state == Exec(old(state), steps)
      ensures state.phase == if works then Idle else Stopped
    {
      if works {
        stored := stored[p := o + 1];
      }
      ExecNext(state, [], Ack(works));
      state, steps := Apply(state, Ack(works)), [] + [Ack(works)];
    }

    /** One turn of the loop: fetch, handle, acknowledge. */
    method Turn(poll: Poll, i: nat, succeeds: (nat, nat) -> bool, acks: nat -> bool)
      returns (ok: bool, ghost steps: seq<Step>)
      requires Valid() && state.phase == Idle
      modifies this
      ensures Valid() && state == Exec(old(state), steps)
      ensures ok <==> Passes(poll, i, succeeds, acks)
      ensures state.phase == if ok then Idle else Stopped
    {
      var o := if poll.Message? then At(position, poll.p) else 0;
      ghost var more;
      ok, steps := Fetch(poll);
      if ok {
        ok, more := HandleEvent(i, succeeds);
        ExecConcat(old(state), steps, more);
        steps := steps + more;
        if ok {
          ok := acks(i);
          more := Acknowledge(poll.p, o, ok);
          ExecConcat(old(state), steps, more);
          steps := steps + more;
        }
      }
    }

    /** The loop over the events of the stream, for any results of polling, handling and acknowledging. It stops
        at the first event that cannot be fetched, parsed, handled or acknowledged, and `n` events went before. */
    method Run(polls: seq<Poll>, succeeds: (nat, nat) -> bool, acks: nat -> bool)
      returns (n: nat, failed: bool, ghost steps: seq<Step>)
      requires Valid() && state.phase == Idle
      modifies this
      ensures Valid() && state == Exec(old(state), steps)
      ensures n <= |polls| && (failed <==> n < |polls|)
      ensures forall i: nat :: i < n ==> Passes(polls[i], i, succeeds, acks)
      ensures failed ==> !Passes(polls[n], n, succeeds, acks)
      ensures state.phase == if failed then Stopped else Idle
    {
      steps, n := [], 0;
      while n < |polls|
        invariant Valid() && state.phase == Idle && state == Exec(old(state), steps)
        invariant n <= |polls|
        invariant forall i: nat :: i < n ==> Passes(polls[i], i, succeeds, acks)
      {
        var ok;
        ghost var rest;
        ok, rest := Turn(polls[n], n, succeeds, acks);
        ExecConcat(old(state), steps, rest);
        steps := steps + rest;
        if !ok {
          return n, true, steps;
        }
        n := n + 1;
      }
      failed := false;
    }
  }
}
