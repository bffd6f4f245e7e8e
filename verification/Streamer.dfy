/** The streaming writer of JSON arrays: one chunk per poll, whatever the polls yield. */
module Streamer {
  import opened Common

  /** What the wrapped stream answers to a poll. An item comes with its encoding, if it has one. */
  datatype Upstream = Pending | Failure | Item(encoded: Option<string>) | NoMore

  datatype Poll = PollPending | Chunk(data: string) | Error | Done

  datatype Phase = Start | Data | End

  class ArrayStreamer {
    var phase: Phase

    constructor ()
      ensures phase == Start
    {
      phase := Start;
    }

    /** One poll. The wrapped stream is polled only before the end. */
    method PollNext(next: Upstream) returns (r: Poll)
      modifies this
      ensures (phase, r) == Polled(old(phase), next)
    {
      if phase == End {
        return Done;
      }
      var data := "";
      if phase == Start {
        data := data + "[";
      }
      match next {
        case Pending => return PollPending;
        case Failure => return Error;
        case Item(encoded) =>
          if phase == Data {
            data := data + ",";
          }
          match encoded {
            case Some(buffer) => data := data + buffer;
            case None => return Error;
          }
          phase := Data;
        case NoMore =>
          phase := End;
      }
      if phase == End {
        data := data + "]";
      }
      assert next.Item? ==> data == (if old(phase) == Start then "[" else ",") + next.encoded.value;
      assert next == NoMore ==> data == if old(phase) == Start then "[]" else "]";
      r := if data == "" then Done else Chunk(data);
    }

    /** A client that polls through a schedule, and keeps the bytes of the chunks and the number of errors. */
    method Collect(schedule: seq<Upstream>) returns (text: string, errors: nat)
      requires phase == Start
      modifies this
      ensures phase == End <==> Ended(schedule)
      ensures text == Written(Items(schedule), Ended(schedule))
      ensures errors == Failures(schedule)
    {
      text, errors := "", 0;
      var i := 0;
      while i < |schedule|
        invariant i <= |schedule|
        invariant phase == PhaseAfter(schedule[..i])
        invariant text == Written(Items(schedule[..i]), Ended(schedule[..i]))
        invariant errors == Failures(schedule[..i])
      {
        OnePoll(schedule[..i], schedule[i]);
        assert schedule[..i + 1] == schedule[..i] + [schedule[i]];
        var r := PollNext(schedule[i]);
        text := text + if r.Chunk? then r.data else "";
        errors := errors + if r.Error? then 1 else 0;
        i := i + 1;
      }
      assert schedule[..i] == schedule;
    }
  }

  // ----- one poll, by cases -----

  function Polled(phase: Phase, next: Upstream): (Phase, Poll) {
    match (phase, next)
    case (End, _) => (End, Done)
    case (_, Pending) => (phase, PollPending)
    case (_, Failure) => (phase, Error)
    case (_, Item(None)) => (phase, Error)
    case (Start, Item(Some(v))) => (Data, Chunk("[" + v))
    case (Data, Item(Some(v))) => (Data, Chunk("," + v))
    case (Start, NoMore) => (End, Chunk("[]"))
    case (Data, NoMore) => (End, Chunk("]"))
  }

  // ----- what a schedule should give -----

  predicate Ended(schedule: seq<Upstream>) {
    NoMore in schedule
  }

  /** The encoded items that come before the end, in order. */
  function Items(schedule: seq<Upstream>): seq<string> {
    if schedule == [] then []
    else
      var init, last := schedule[..|schedule| - 1], schedule[|schedule| - 1];
      if !Ended(init) && last.Item? && last.encoded.Some? then Items(init) + [last.encoded.value] else Items(init)
  }

  /** The failing items, and those that cannot be encoded, before the end. */
  function Failures(schedule: seq<Upstream>): nat {
    if schedule == [] then 0
    else
      var init, last := schedule[..|schedule| - 1], schedule[|schedule| - 1];
      Failures(init) + if !Ended(init) && (last == Failure || last == Item(None)) then 1 else 0
  }

  function PhaseAfter(schedule: seq<Upstream>): Phase {
    if Ended(schedule) then End else if Items(schedule) == [] then Start else Data
  }

  function Join(items: seq<string>): string {
    if items == [] then ""
    else if |items| == 1 then items[0]
    else Join(items[..|items| - 1]) + "," + items[|items| - 1]
  }

  /** An array, or as much of it as can be written before the end is known. */
  function Written(items: seq<string>, ended: bool): string {
    if ended then "[" + Join(items) + "]" else if items == [] then "" else "[" + Join(items)
  }

  lemma OneMore(schedule: seq<Upstream>, next: Upstream)
    ensures var all := schedule + [next];
      && (Ended(all) <==> Ended(schedule) || next == NoMore)
      && Items(all) == Items(schedule) +
         (if !Ended(schedule) && next.Item? && next.encoded.Some? then [next.encoded.value] else [])
      && Failures(all) == Failures(schedule) +
         (if !Ended(schedule) && (next == Failure || next == Item(None)) then 1 else 0)
  {
    var all := schedule + [next];
    assert all[..|all| - 1] == schedule && all[|all| - 1] == next;
  }

  lemma WriteMore(items: seq<string>, v: string)
    ensures Written(items + [v], false) == Written(items, false) + ((if items == [] then "[" else ",") + v)
    ensures Written(items, true) == Written(items, false) + (if items == [] then "[]" else "]")
  {
    assert (items + [v])[..|items|] == items;
  }

  /** What one more poll adds. */
  lemma {:induction false} OnePoll(schedule: seq<Upstream>, next: Upstream)
    ensures var (phase, r) := Polled(PhaseAfter(schedule), next);
      var all := schedule + [next];
      && phase == PhaseAfter(all)
      && Written(Items(all), Ended(all)) ==
         Written(Items(schedule), Ended(schedule)) + (if r.Chunk? then r.data else "")
      && Failures(all) == Failures(schedule) + (if r == Error then 1 else 0)
  {
    OneMore(schedule, next);
    WriteMore(Items(schedule), if next.Item? && next.encoded.Some? then next.encoded.value else "");
  }

  // ----- the array can be read back -----

  /** A reader's position: how many brackets are open, whether it is in a string, and after a backslash there. */
  datatype Scan = Scan(depth: nat, quoted: bool, escaped: bool)

  const OUTSIDE := Scan(0, false, false)

  /** The position after one more character of a value; none if the character ends the value. */
  function Scanned(s: Scan, c: char): Option<Scan> {
    if s.escaped then Some(s.(escaped := false))
    else if s.quoted then Some(if c == '\\' then s.(escaped := true) else if c == '"' then s.(quoted := false) else s)
    else if c == '"' then Some(s.(quoted := true))
    else if c == '[' || c == '{' then Some(s.(depth := s.depth + 1))
    else if c == ']' || c == '}' then if s.depth == 0 then None else Some(s.(depth := s.depth - 1))
    else if c == ',' && s.depth == 0 then None
    else Some(s)
  }

  function ScanAll(s: Scan, text: string): Option<Scan>
    decreases text
  {
    if text == "" then Some(s)
    else
      match Scanned(s, text[0])
      case None => None
      case Some(t) => ScanAll(t, text[1..])
  }

  /** What every JSON text is like: not empty, its strings and brackets closed, and no comma outside of them. */
  predicate IsValue(text: string) {
    text != "" && ScanAll(OUTSIDE, text) == Some(OUTSIDE)
  }

  /** Reads the values of an array after its opening bracket. */
  function ReadItems(text: string, s: Scan, current: string): Option<seq<string>> {
    if text == "" then None
    else
      match Scanned(s, text[0])
      case Some(t) => ReadItems(text[1..], t, current + [text[0]])
      case None =>
        if text == "]" then Some([current])
        else if text[0] != ',' then None
        else
          match ReadItems(text[1..], OUTSIDE, "")
          case None => None
          case Some(items) => Some([current] + items)
  }

  function ReadArray(text: string): Option<seq<string>> {
    if text == "[]" then Some([])
    else if text == "" || text[0] != '[' then None
    else ReadItems(text[1..], OUTSIDE, "")
  }

  lemma {:induction false} ReadValue(value: string, rest: string, s: Scan, current: string)
    requires ScanAll(s, value).Some?
    ensures ReadItems(value + rest, s, current) == ReadItems(rest, ScanAll(s, value).value, current + value)
  {
    if value == "" {
      assert value + rest == rest && current + value == current;
    } else {
      assert (value + rest)[1..] == value[1..] + rest;
      assert current + [value[0]] + value[1..] == current + value;
      ReadValue(value[1..], rest, Scanned(s, value[0]).value, current + [value[0]]);
    }
  }

  lemma {:induction false} JoinFromFront(items: seq<string>)
    requires |items| >= 2
    ensures Join(items) == items[0] + "," + Join(items[1..])
  {
    var n := |items| - 1;
    if n > 1 {
      JoinFromFront(items[..n]);
      assert items[..n][1..] == items[1..][..n - 1];
    }
  }

  lemma {:induction false} ReadJoined(items: seq<string>)
    requires items != [] && forall v :: v in items ==> IsValue(v)
    ensures ReadItems(Join(items) + "]", OUTSIDE, "") == Some(items)
  {
    assert items[0] in items && "" + items[0] == items[0];
    if |items| == 1 {
      ReadValue(items[0], "]", OUTSIDE, "");
      assert items == [items[0]];
    } else {
      var rest := "," + Join(items[1..]) + "]";
      JoinFromFront(items);
      assert Join(items) + "]" == items[0] + rest;
      ReadValue(items[0], rest, OUTSIDE, "");
      assert rest[1..] == Join(items[1..]) + "]";
      ReadJoined(items[1..]);
      assert items == [items[0]] + items[1..];
    }
  }

  /** Whatever the schedule, the finished text is an array that reads back as exactly the encoded items. */
  lemma WrittenReadsBack(items: seq<string>)
    requires forall v :: v in items ==> IsValue(v)
    ensures ReadArray(Written(items, true)) == Some(items)
  {
    var text := Written(items, true);
    if items == [] {
      assert text == "[]";
    } else {
      assert text[1..] == Join(items) + "]";
      ReadJoined(items);
      assert items[0] in items;
      assert text != "[]" by {
        if |items| >= 2 {
          JoinFromFront(items);
        }
        assert |Join(items)| > 0;
      }
    }
  }
}
