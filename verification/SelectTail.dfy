/** The end of SELECT statements: order, limits and lock can be read back from the text. */
module SelectTail {
  import opened Common
  import opened Select
  import T = SelectText

  function Split(s: string, separator: char): (parts: seq<string>)
    ensures parts != []
  {
    if s == "" then [""]
    else
      var rest := Split(s[1..], separator);
      if s[0] == separator then [""] + rest else [[s[0]] + rest[0]] + rest[1..]
  }

  /** What comes before the first separator is the first part. */
  lemma {:induction false} SplitThen(first: string, tail: string, separator: char)
    requires separator !in first && (tail == "" || tail[0] == separator)
    ensures Split(first + tail, separator) == [first] + Split(tail, separator)[1..]
  {
    var all := first + tail;
    if first == "" {
      assert all == tail;
      assert Split(tail, separator)[0] == "";
    } else {
      assert all[0] == first[0] && all[1..] == first[1..] + tail;
      SplitThen(first[1..], tail, separator);
      var rest := Split(all[1..], separator);
      assert rest[0] == first[1..] && rest[1..] == Split(tail, separator)[1..];
      assert [first[0]] + first[1..] == first;
    }
  }

  lemma SplitBreak(s: string, separator: char)
    ensures Split([separator] + s, separator) == [""] + Split(s, separator)
  {
    assert ([separator] + s)[1..] == s;
  }

  /** Splitting undoes joining. */
  lemma {:induction false} SplitJoin(items: seq<string>, separator: char)
    requires items != [] && forall i :: 0 <= i < |items| ==> separator !in items[i]
    ensures Split(Join(items, [separator]), separator) == items
  {
    if |items| == 1 {
      assert items[0] + "" == items[0];
      SplitThen(items[0], "", separator);
      assert Split("", separator)[1..] == [];
    } else {
      var rest := Join(items[1..], [separator]);
      SplitJoin(items[1..], separator);
      SplitBreak(rest, separator);
      SplitThen(items[0], [separator] + rest, separator);
      assert Join(items, [separator]) == items[0] + ([separator] + rest);
    }
  }

  /** Lines, each after a line break. */
  function Lines(items: seq<string>): string {
    if items == [] then "" else ['\n'] + (items[0] + Lines(items[1..]))
  }

  lemma {:induction false} SplitLines(items: seq<string>)
    requires forall i :: 0 <= i < |items| ==> '\n' !in items[i]
    ensures Split(Lines(items), '\n') == [""] + items
  {
    if items != [] {
      SplitLines(items[1..]);
      SplitThen(items[0], Lines(items[1..]), '\n');
      SplitBreak(items[0] + Lines(items[1..]), '\n');
      assert ([""] + items[1..])[1..] == items[1..];
    }
  }

  lemma {:induction false} LinesConcat(a: seq<string>, b: seq<string>)
    ensures Lines(a + b) == Lines(a) + Lines(b)
  {
    if a == [] {
      assert a + b == b;
    } else {
      assert (a + b)[1..] == a[1..] + b;
      LinesConcat(a[1..], b);
    }
  }

  lemma OneLine(line: string)
    ensures Lines([line]) == ['\n'] + line
  {
    assert [line][1..] == [] && line + Lines([]) == line;
  }

  // ----- the lines of a statement -----

  /** Everything after the clauses. */
  function Tail(sort: seq<string>, limit: Option<nat>, offset: Option<nat>, lock: Lock): string {
    SortText(sort) + LimitText("\nLIMIT ", limit) + LimitText("\nOFFSET ", offset) + "\n" + LockText(lock)
  }

  lemma Associate(a: string, b: string, c: string, d: string, e: string, f: string)
    ensures a + b + c + d + e + f == a + (b + c + d + e + f)
  {
  }

  lemma BuiltEndsWithTail(base: string, clauses: seq<Clause>, hasWhere: bool,
                          sort: seq<string>, limit: Option<nat>, offset: Option<nat>, lock: Lock)
    ensures BuiltText(base, clauses, hasWhere, sort, limit, offset, lock) ==
      TextOf([Raw(base)] + Connected(clauses, hasWhere)) + Tail(sort, limit, offset, lock)
  {
    Associate(TextOf([Raw(base)] + Connected(clauses, hasWhere)), SortText(sort), LimitText("\nLIMIT ", limit),
              LimitText("\nOFFSET ", offset), "\n", LockText(lock));
  }

  function SortLines(sort: seq<string>): seq<string> {
    if sort == [] then [] else ["ORDER BY " + Join(sort, ",")]
  }

  function LimitLines(word: string, n: Option<nat>): seq<string> {
    if n == None then [] else [word + Decimal(n.value)]
  }

  function LockLine(lock: Lock): string {
    match lock { case NoLock => "" case ForUpdate => "FOR UPDATE" case ForShare => "FOR SHARE" }
  }

  /** The lines that a statement ends with. */
  function TailLines(sort: seq<string>, limit: Option<nat>, offset: Option<nat>, lock: Lock): seq<string> {
    SortLines(sort) + LimitLines("LIMIT ", limit) + LimitLines("OFFSET ", offset) + [LockLine(lock)]
  }

  lemma SortIsLine(sort: seq<string>, word: string)
    requires word == "ORDER BY "
    ensures SortText(sort) == Lines(SortLines(sort))
  {
    if sort != [] {
      OneLine(word + Join(sort, ","));
      assert ['\n'] + word == "\nORDER BY ";
      assert ['\n'] + (word + Join(sort, ",")) == ['\n'] + word + Join(sort, ",");
    }
  }

  lemma LimitIsLine(word: string, n: Option<nat>)
    ensures LimitText(['\n'] + word, n) == Lines(LimitLines(word, n))
  {
    if n.Some? {
      OneLine(word + Decimal(n.value));
    }
  }

  lemma LockIsLine(lock: Lock)
    ensures "\n" + LockText(lock) == Lines([LockLine(lock)])
  {
    OneLine(LockLine(lock));
  }

  lemma Words()
    ensures ['\n'] + "LIMIT " == "\nLIMIT " && ['\n'] + "OFFSET " == "\nOFFSET "
  {
  }

  lemma FourParts(a: seq<string>, b: seq<string>, c: seq<string>, d: seq<string>)
    ensures Lines(a + b + c + d) == Lines(a) + Lines(b) + Lines(c) + Lines(d)
  {
    LinesConcat(a, b);
    LinesConcat(a + b, c);
    LinesConcat(a + b + c, d);
  }

  lemma LastTwo(a: string, b: string, c: string, d: string, e: string)
    ensures a + b + c + d + e == a + b + c + (d + e)
  {
  }

  lemma TailIsLines(sort: seq<string>, limit: Option<nat>, offset: Option<nat>, lock: Lock)
    ensures Tail(sort, limit, offset, lock) == Lines(TailLines(sort, limit, offset, lock))
  {
    SortIsLine(sort, "ORDER BY ");
    Words();
    LimitIsLine("LIMIT ", limit);
    LimitIsLine("OFFSET ", offset);
    LockIsLine(lock);
    FourParts(SortLines(sort), LimitLines("LIMIT ", limit), LimitLines("OFFSET ", offset), [LockLine(lock)]);
    LastTwo(SortText(sort), LimitText("\nLIMIT ", limit), LimitText("\nOFFSET ", offset), "\n", LockText(lock));
  }

  lemma {:induction false} JoinIsOneLine(items: seq<string>)
    requires forall i :: 0 <= i < |items| ==> '\n' !in items[i]
    ensures '\n' !in Join(items, ",")
  {
    if |items| > 1 {
      JoinIsOneLine(items[1..]);
    }
  }

  lemma LimitIsOneLine(word: string, n: Option<nat>)
    requires '\n' !in word
    ensures forall s :: s in LimitLines(word, n) ==> '\n' !in s
  {
    if n.Some? {
      T.DecimalReadsBack(n.value);
    }
  }

  lemma SortIsOneLine(sort: seq<string>)
    requires forall i :: 0 <= i < |sort| ==> '\n' !in sort[i]
    ensures forall s :: s in SortLines(sort) ==> '\n' !in s
  {
    JoinIsOneLine(sort);
  }

  lemma LockIsOneLine(lock: Lock)
    ensures '\n' !in LockLine(lock)
  {
  }

  lemma TailLinesAreLines(sort: seq<string>, limit: Option<nat>, offset: Option<nat>, lock: Lock)
    requires forall i :: 0 <= i < |sort| ==> '\n' !in sort[i]
    ensures forall i :: 0 <= i < |TailLines(sort, limit, offset, lock)| ==> '\n' !in TailLines(sort, limit, offset, lock)[i]
  {
    SortIsOneLine(sort);
    LimitIsOneLine("LIMIT ", limit);
    LimitIsOneLine("OFFSET ", offset);
    LockIsOneLine(lock);
    forall s | s in TailLines(sort, limit, offset, lock) ensures '\n' !in s {
    }
  }

  /** What follows the clauses in a statement can be read back, line by line, and the sort columns one by one. */
  lemma TailReadsBack(base: string, clauses: seq<Clause>, hasWhere: bool,
                      sort: seq<string>, limit: Option<nat>, offset: Option<nat>, lock: Lock)
    requires forall i :: 0 <= i < |sort| ==> '\n' !in sort[i] && ',' !in sort[i]
    ensures BuiltText(base, clauses, hasWhere, sort, limit, offset, lock) ==
      TextOf([Raw(base)] + Connected(clauses, hasWhere)) + Tail(sort, limit, offset, lock)
    ensures Split(Tail(sort, limit, offset, lock), '\n') == [""] + TailLines(sort, limit, offset, lock)
    ensures sort != [] ==> Split(Join(sort, ","), ',') == sort
  {
    BuiltEndsWithTail(base, clauses, hasWhere, sort, limit, offset, lock);
    TailIsLines(sort, limit, offset, lock);
    TailLinesAreLines(sort, limit, offset, lock);
    SplitLines(TailLines(sort, limit, offset, lock));
    if sort != [] {
      SplitJoin(sort, ',');
    }
  }
}
