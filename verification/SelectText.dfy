/** The text of SELECT statements: its placeholders are those of its clauses. */
module SelectText {
  import opened Common
  import opened Select

  // ----- reading placeholders -----

  predicate IsDigit(c: char) {
    '0' <= c <= '9'
  }

  /** How many digits a text starts with. */
  function LeadingDigits(s: string): (n: nat)
    ensures n <= |s|
  {
    if s == "" || !IsDigit(s[0]) then 0 else 1 + LeadingDigits(s[1..])
  }

  function Number(s: string): nat {
    if s == "" then 0
    else 10 * Number(s[..|s| - 1]) + if IsDigit(s[|s| - 1]) then s[|s| - 1] as nat - '0' as nat else 0
  }

  /** The placeholder that a text starts with, if it does: a dollar sign and digits. */
  function FirstPlaceholder(s: string): seq<nat>
    requires s != ""
  {
    var n := LeadingDigits(s[1..]);
    if s[0] == '$' && n > 0 then [Number(s[1..][..n])] else []
  }

  /** The positions that a statement refers to, as the database reads them. */
  function PlaceholdersIn(s: string): seq<nat> {
    if s == "" then [] else FirstPlaceholder(s) + PlaceholdersIn(s[1..])
  }

  /** Where a text may be cut without cutting a number. */
  predicate StartsClean(s: string) {
    s == "" || !IsDigit(s[0])
  }

  lemma {:induction false} LeadingDigitsConcat(a: string, b: string)
    requires StartsClean(b)
    ensures LeadingDigits(a + b) == LeadingDigits(a)
  {
    if a == "" {
      assert a + b == b;
    } else {
      assert (a + b)[1..] == a[1..] + b;
      LeadingDigitsConcat(a[1..], b);
    }
  }

  lemma FirstPlaceholderConcat(a: string, b: string)
    requires StartsClean(b) && a != ""
    ensures FirstPlaceholder(a + b) == FirstPlaceholder(a)
  {
    assert (a + b)[1..] == a[1..] + b;
    LeadingDigitsConcat(a[1..], b);
    var n := LeadingDigits(a[1..]);
    assert (a[1..] + b)[..n] == a[1..][..n];
  }

  lemma {:induction false} PlaceholdersConcat(a: string, b: string)
    requires StartsClean(b)
    ensures PlaceholdersIn(a + b) == PlaceholdersIn(a) + PlaceholdersIn(b)
  {
    if a == "" {
      assert a + b == b;
    } else {
      FirstPlaceholderConcat(a, b);
      assert (a + b)[1..] == a[1..] + b;
      PlaceholdersConcat(a[1..], b);
    }
  }

  lemma {:induction false} NoPlaceholders(s: string)
    requires '$' !in s
    ensures PlaceholdersIn(s) == []
  {
    if s != "" {
      NoPlaceholders(s[1..]);
    }
  }

  // ----- writing them -----

  predicate AllDigits(s: string) {
    forall i :: 0 <= i < |s| ==> IsDigit(s[i])
  }

  lemma {:induction false} LeadingOfDigits(s: string)
    requires AllDigits(s)
    ensures LeadingDigits(s) == |s|
  {
    if s != "" {
      LeadingOfDigits(s[1..]);
    }
  }

  lemma DigitText(d: nat)
    requires d < 10
    ensures IsDigit("0123456789"[d]) && "0123456789"[d] as nat - '0' as nat == d
  {
  }

  lemma NumberAppend(s: string, c: char)
    requires IsDigit(c)
    ensures Number(s + [c]) == 10 * Number(s) + (c as nat - '0' as nat)
    ensures AllDigits(s) ==> AllDigits(s + [c])
  {
    assert (s + [c])[..|s|] == s;
  }

  lemma {:induction false} DecimalReadsBack(n: nat)
    ensures Decimal(n) != "" && AllDigits(Decimal(n)) && Number(Decimal(n)) == n
  {
    DigitText(n % 10);
    var front := if n < 10 then "" else Decimal(n / 10);
    NumberAppend(front, "0123456789"[n % 10]);
    if n >= 10 {
      DecimalReadsBack(n / 10);
    }
    assert Decimal(n) == front + ["0123456789"[n % 10]];
  }

  lemma PlaceholderReadsBack(n: nat)
    ensures PlaceholdersIn(Placeholder(n)) == [n] && StartsClean(Placeholder(n))
  {
    var s := Placeholder(n);
    DecimalReadsBack(n);
    LeadingOfDigits(Decimal(n));
    assert s[0] == '$' && s[1..] == Decimal(n) && Decimal(n)[..|Decimal(n)|] == Decimal(n);
    NoPlaceholders(Decimal(n));
  }

  /** The positions of a clause, in the order of its text. */
  function Positions(c: Clause): seq<nat> {
    match c
    case LabelIs(n, m) => [n, m]
    case LabelIsNot(n, m) => [n, m]
    case LabelIn(n, m) => [n, m]
    case LabelNotIn(n, m) => [n, m]
    case CanRead(n) => [n, n]
    case _ => [c.n]
  }

  lemma Text(a: string, t: string)
    requires '$' !in t && StartsClean(t)
    ensures PlaceholdersIn(a + t) == PlaceholdersIn(a)
  {
    PlaceholdersConcat(a, t);
    NoPlaceholders(t);
  }

  lemma Refers(a: string, n: nat)
    ensures PlaceholdersIn(a + Placeholder(n)) == PlaceholdersIn(a) + [n]
  {
    PlaceholderReadsBack(n);
    PlaceholdersConcat(a, Placeholder(n));
  }

  lemma OneReference(t: string, n: nat, u: string)
    requires '$' !in t && '$' !in u && StartsClean(u)
    ensures PlaceholdersIn(t + Placeholder(n)) == [n]
    ensures PlaceholdersIn(t + Placeholder(n) + u) == [n]
  {
    NoPlaceholders(t);
    Refers(t, n);
    Text(t + Placeholder(n), u);
  }

  lemma TwoReferences(t: string, n: nat, u: string, m: nat, v: string)
    requires '$' !in t && '$' !in u && '$' !in v && StartsClean(u) && StartsClean(v)
    ensures PlaceholdersIn(t + Placeholder(n) + u + Placeholder(m)) == [n, m]
    ensures PlaceholdersIn(t + Placeholder(n) + u + Placeholder(m) + v) == [n, m]
  {
    OneReference(t, n, u);
    Refers(t + Placeholder(n) + u, m);
    Text(t + Placeholder(n) + u + Placeholder(m), v);
  }

  /** The text of a clause refers to exactly the positions of the clause. */
  lemma ClausePlaceholders(c: Clause)
    ensures PlaceholdersIn(ClauseText(c)) == Positions(c)
  {
    match c
    case NameIs(n) => OneReference(" NAME=", n, "");
    case HasLabel(n) => OneReference(" LABELS ? ", n, "");
    case LacksLabel(n) => OneReference(" (NOT LABELS ? ", n, ")");
    case LabelIs(n, m) => TwoReferences(" LABELS ->> ", n, " = ", m, "");
    case LabelIsNot(n, m) => TwoReferences(" LABELS ->> ", n, " <> ", m, "");
    case LabelIn(n, m) => TwoReferences(" LABELS ->> ", n, " = ANY (", m, ")");
    case LabelNotIn(n, m) => TwoReferences(" NOT(LABELS ->> ", n, " = ANY (", m, "))");
    case CanRead(n) => ReadPlaceholders(n);
  }

  lemma ReadPlaceholders(n: nat)
    ensures PlaceholdersIn(ClauseText(CanRead(n))) == [n, n]
  {
    var t, u := "\n    (\n        OWNER=", "\n    OR\n        MEMBERS->";
    var head := t + Placeholder(n) + u + Placeholder(n);
    TwoReferences(t, n, u, n, "");
    Text(head, "->>'role'");
    RolesAreText();
    Text(head + "->>'role'", ROLES);
    Text(head + "->>'role'" + ROLES, "\n    OR\n        MEMBERS->''->>'role'");
    Text(head + "->>'role'" + ROLES + "\n    OR\n        MEMBERS->''->>'role'", ROLES);
    Text(head + "->>'role'" + ROLES + "\n    OR\n        MEMBERS->''->>'role'" + ROLES, "\n    )\n");
  }

  lemma RolesAreText()
    ensures '$' !in ROLES && StartsClean(ROLES)
  {
  }

  /** The positions that a piece of a statement refers to. */
  function PiecePositions(p: Piece): seq<nat> {
    match p
    case Raw(text) => PlaceholdersIn(text)
    case ClausePiece(c) => Positions(c)
    case _ => []
  }

  function AllPositions(pieces: seq<Piece>): seq<nat> {
    if pieces == [] then [] else AllPositions(pieces[..|pieces| - 1]) + PiecePositions(pieces[|pieces| - 1])
  }

  lemma ClauseStartsClean(c: Clause)
    ensures StartsClean(ClauseText(c))
  {
  }

  lemma WordIsText(p: Piece)
    requires p == Where || p == AndWord
    ensures StartsClean(PieceText(p)) && '$' !in PieceText(p)
  {
  }

  lemma PiecePlaceholders(p: Piece)
    requires !p.Raw?
    ensures StartsClean(PieceText(p)) && PlaceholdersIn(PieceText(p)) == PiecePositions(p)
  {
    if p.ClausePiece? {
      ClauseStartsClean(p.clause);
      ClausePlaceholders(p.clause);
    } else {
      WordIsText(p);
      NoPlaceholders(PieceText(p));
    }
  }

  /** The text of a statement, of which only the first piece is the caller's, refers to the positions of its pieces. */
  lemma {:induction false} StatementPlaceholders(pieces: seq<Piece>)
    requires forall i :: 0 <= i < |pieces| ==> (pieces[i].Raw? <==> i == 0)
    ensures PlaceholdersIn(TextOf(pieces)) == AllPositions(pieces)
  {
    if pieces != [] {
      var n := |pieces| - 1;
      StatementPlaceholders(pieces[..n]);
      if n > 0 {
        PiecePlaceholders(pieces[n]);
        PlaceholdersConcat(TextOf(pieces[..n]), PieceText(pieces[n]));
      } else {
        assert TextOf(pieces) == PieceText(pieces[0]) && AllPositions(pieces) == PiecePositions(pieces[0]);
      }
    }
  }

  function ClausePositions(clauses: seq<Clause>): seq<nat> {
    if clauses == [] then [] else ClausePositions(clauses[..|clauses| - 1]) + Positions(clauses[|clauses| - 1])
  }

  lemma PositionsNext(pieces: seq<Piece>, word: Piece, c: Clause)
    requires word == Where || word == AndWord
    ensures AllPositions(pieces + [word, ClausePiece(c)]) == AllPositions(pieces) + Positions(c)
  {
    var all := pieces + [word, ClausePiece(c)];
    assert all[..|all| - 1] == pieces + [word] && (pieces + [word])[..|pieces|] == pieces;
    assert AllPositions(pieces + [word]) == AllPositions(pieces);
  }

  lemma ConnectedNext(head: seq<Piece>, clauses: seq<Clause>, hasWhere: bool)
    requires clauses != []
    ensures var n := |clauses| - 1;
      head + Connected(clauses, hasWhere) == (head + Connected(clauses[..n], hasWhere))
        + [if n == 0 && !hasWhere then Where else AndWord, ClausePiece(clauses[n])]
  {
  }

  lemma Regroup(x: seq<nat>, y: seq<nat>, z: seq<nat>)
    ensures x + y + z == x + (y + z)
  {
  }

  lemma {:induction false} ConnectedPositions(head: seq<Piece>, clauses: seq<Clause>, hasWhere: bool)
    ensures AllPositions(head + Connected(clauses, hasWhere)) == AllPositions(head) + ClausePositions(clauses)
  {
    if clauses == [] {
      assert head + Connected(clauses, hasWhere) == head;
    } else {
      var n := |clauses| - 1;
      ConnectedPositions(head, clauses[..n], hasWhere);
      ConnectedNext(head, clauses, hasWhere);
      PositionsNext(head + Connected(clauses[..n], hasWhere), if n == 0 && !hasWhere then Where else AndWord, clauses[n]);
      Regroup(AllPositions(head), ClausePositions(clauses[..n]), Positions(clauses[n]));
    }
  }

  lemma {:induction false} ConnectedIsNotRaw(clauses: seq<Clause>, hasWhere: bool)
    ensures forall i :: 0 <= i < |Connected(clauses, hasWhere)| ==> !Connected(clauses, hasWhere)[i].Raw?
  {
    if clauses != [] {
      ConnectedIsNotRaw(clauses[..|clauses| - 1], hasWhere);
    }
  }

  lemma {:induction false} JoinIsText(items: seq<string>, separator: string)
    requires '$' !in separator && forall s :: s in items ==> '$' !in s
    ensures '$' !in Join(items, separator)
  {
    if |items| > 1 {
      JoinIsText(items[1..], separator);
    }
  }

  lemma SortIsText(sort: seq<string>)
    requires forall column :: column in sort ==> '$' !in column
    ensures '$' !in SortText(sort) && StartsClean(SortText(sort))
  {
    JoinIsText(sort, ",");
  }

  lemma LimitIsText(word: string, n: Option<nat>)
    requires '$' !in word && word != "" && StartsClean(word)
    ensures '$' !in LimitText(word, n) && StartsClean(LimitText(word, n))
  {
    if n.Some? {
      DecimalReadsBack(n.value);
    }
  }

  lemma LockIsText(lock: Lock)
    ensures '$' !in LockText(lock) && StartsClean(LockText(lock))
  {
  }

  /** The text that is built, order, limits and lock included, refers to what its base refers to, and then to the
      positions of its clauses, in order. */
  lemma BuiltPlaceholders(base: string, clauses: seq<Clause>, hasWhere: bool,
                          sort: seq<string>, limit: Option<nat>, offset: Option<nat>, lock: Lock)
    requires forall column :: column in sort ==> '$' !in column
    ensures PlaceholdersIn(BuiltText(base, clauses, hasWhere, sort, limit, offset, lock)) ==
      PlaceholdersIn(base) + ClausePositions(clauses)
  {
    ClausesPlaceholders(base, clauses, hasWhere);
    SortIsText(sort);
    LimitIsText("\nLIMIT ", limit);
    LimitIsText("\nOFFSET ", offset);
    LockIsText(lock);
    FiveTexts(TextOf([Raw(base)] + Connected(clauses, hasWhere)), SortText(sort), LimitText("\nLIMIT ", limit),
              LimitText("\nOFFSET ", offset), "\n", LockText(lock));
  }

  lemma FiveTexts(a: string, b: string, c: string, d: string, e: string, f: string)
    requires '$' !in b && '$' !in c && '$' !in d && '$' !in e && '$' !in f
    requires StartsClean(b) && StartsClean(c) && StartsClean(d) && StartsClean(e) && StartsClean(f)
    ensures PlaceholdersIn(a + b + c + d + e + f) == PlaceholdersIn(a)
  {
    Text(a, b);
    Text(a + b, c);
    Text(a + b + c, d);
    Text(a + b + c + d, e);
    Text(a + b + c + d + e, f);
  }

  lemma ClausesPlaceholders(base: string, clauses: seq<Clause>, hasWhere: bool)
    ensures PlaceholdersIn(TextOf([Raw(base)] + Connected(clauses, hasWhere))) ==
      PlaceholdersIn(base) + ClausePositions(clauses)
  {
    ConnectedPositions([Raw(base)], clauses, hasWhere);
    assert [Raw(base)][..0] == [] && AllPositions([Raw(base)]) == PlaceholdersIn(base);
    ConnectedIsNotRaw(clauses, hasWhere);
    StatementPlaceholders([Raw(base)] + Connected(clauses, hasWhere));
  }

  lemma PositionsOfClause(c: Condition, k: nat, n: nat)
    ensures n in Positions(ClauseOf(c, k)) <==> k < n <= k + |ParamsOf(c)|
  {
  }

  /** Its own placeholders are exactly the positions of the parameters that the conditions pushed: none dangles, and
      no parameter is without one. */
  lemma {:induction false} CompiledPositions(base: seq<Param>, conditions: seq<Condition>, n: nat)
    ensures n in ClausePositions(Compile(base, conditions)) <==> |base| < n <= |AllParams(base, conditions)|
    ensures |base| <= |AllParams(base, conditions)|
  {
    if conditions != [] {
      var m := |conditions| - 1;
      var before := conditions[..m];
      CompiledPositions(base, before, n);
      PositionsOfClause(conditions[m], |AllParams(base, before)|, n);
      var clauses := Compile(base, conditions);
      assert clauses[..|clauses| - 1] == Compile(base, before);
    }
  }

  // ----- reading clauses back -----

  /** The text with every placeholder reduced to its dollar sign. */
  function Skeleton(s: string): string
    decreases |s|
  {
    if s == "" then ""
    else if s[0] != '$' then [s[0]] + Skeleton(s[1..])
    else "$" + Skeleton(s[1..][LeadingDigits(s[1..])..])
  }

  /** The list of the roles that may read, as SQL has it. */
  function RoleList(): string {
    " IN ('" + READERS[0] + "', '" + READERS[1] + "', '" + READERS[2] + "')"
  }

  function One(before: string, after: string): string {
    before + "$" + after
  }

  function Two(before: string, between: string, after: string): string {
    before + "$" + between + "$" + after
  }

  /** A reader of conditions: which column is compared, with what, and whether that is negated. */
  function ReadClause(text: string): Option<Clause> {
    var words, at := Skeleton(text), PlaceholdersIn(text);
    if |at| == 1 then
      if words == One(" NAME=", "") then Some(NameIs(at[0]))
      else if words == One(" LABELS ? ", "") then Some(HasLabel(at[0]))
      else if words == One(" (NOT LABELS ? ", ")") then Some(LacksLabel(at[0]))
      else None
    else if |at| == 2 then
      if words == Two(" LABELS ->> ", " = ", "") then Some(LabelIs(at[0], at[1]))
      else if words == Two(" LABELS ->> ", " <> ", "") then Some(LabelIsNot(at[0], at[1]))
      else if words == Two(" LABELS ->> ", " = ANY (", ")") then Some(LabelIn(at[0], at[1]))
      else if words == Two(" NOT(LABELS ->> ", " = ANY (", "))") then Some(LabelNotIn(at[0], at[1]))
      else if words == ReadSkeleton() && at[0] == at[1] then Some(CanRead(at[0]))
      else None
    else None
  }

  function ReadSkeleton(): string {
    Two("\n    (\n        OWNER=", "\n    OR\n        MEMBERS->", "") + "->>'role'" + RoleList()
    + "\n    OR\n        MEMBERS->''->>'role'" + RoleList() + "\n    )\n"
  }

  lemma {:induction false} SkeletonConcat(a: string, b: string)
    requires StartsClean(b)
    ensures Skeleton(a + b) == Skeleton(a) + Skeleton(b)
    decreases |a|
  {
    if a == "" {
      assert a + b == b;
    } else {
      assert (a + b)[1..] == a[1..] + b;
      if a[0] != '$' {
        SkeletonConcat(a[1..], b);
      } else {
        LeadingDigitsConcat(a[1..], b);
        var n := LeadingDigits(a[1..]);
        assert (a[1..] + b)[n..] == a[1..][n..] + b;
        SkeletonConcat(a[1..][n..], b);
      }
    }
  }

  lemma {:induction false} SkeletonOfText(s: string)
    requires '$' !in s
    ensures Skeleton(s) == s
  {
    if s != "" {
      SkeletonOfText(s[1..]);
    }
  }

  lemma SkeletonOfPlaceholder(n: nat)
    ensures Skeleton(Placeholder(n)) == "$" && StartsClean(Placeholder(n))
  {
    var s := Placeholder(n);
    DecimalReadsBack(n);
    LeadingOfDigits(Decimal(n));
    assert s[0] == '$' && s[1..] == Decimal(n) && Decimal(n)[|Decimal(n)|..] == "";
  }

  lemma SkeletonThenText(a: string, t: string)
    requires '$' !in t && StartsClean(t)
    ensures Skeleton(a + t) == Skeleton(a) + t
  {
    SkeletonConcat(a, t);
    SkeletonOfText(t);
  }

  lemma SkeletonThenPlaceholder(a: string, n: nat)
    ensures Skeleton(a + Placeholder(n)) == Skeleton(a) + "$"
  {
    SkeletonOfPlaceholder(n);
    SkeletonConcat(a, Placeholder(n));
  }

  lemma SkeletonOfOne(t: string, n: nat, u: string)
    requires '$' !in t && '$' !in u && StartsClean(u)
    ensures Skeleton(t + Placeholder(n)) == One(t, "")
    ensures Skeleton(t + Placeholder(n) + u) == One(t, u)
  {
    SkeletonOfText(t);
    SkeletonThenPlaceholder(t, n);
    SkeletonThenText(t + Placeholder(n), u);
  }

  lemma SkeletonOfTwo(t: string, n: nat, u: string, m: nat, v: string)
    requires '$' !in t && '$' !in u && '$' !in v && StartsClean(u) && StartsClean(v)
    ensures Skeleton(t + Placeholder(n) + u + Placeholder(m)) == Two(t, u, "")
    ensures Skeleton(t + Placeholder(n) + u + Placeholder(m) + v) == Two(t, u, v)
  {
    SkeletonOfOne(t, n, u);
    SkeletonThenPlaceholder(t + Placeholder(n) + u, m);
    SkeletonThenText(t + Placeholder(n) + u + Placeholder(m), v);
  }

  lemma RolesAreListed()
    ensures ROLES == RoleList()
  {
  }

  lemma ReadClauseText(n: nat)
    ensures Skeleton(ClauseText(CanRead(n))) == ReadSkeleton()
  {
    var t, u := "\n    (\n        OWNER=", "\n    OR\n        MEMBERS->";
    var head := t + Placeholder(n) + u + Placeholder(n);
    SkeletonOfTwo(t, n, u, n, "");
    SkeletonThenText(head, "->>'role'");
    RolesAreText();
    RolesAreListed();
    SkeletonThenText(head + "->>'role'", ROLES);
    SkeletonThenText(head + "->>'role'" + ROLES, "\n    OR\n        MEMBERS->''->>'role'");
    SkeletonThenText(head + "->>'role'" + ROLES + "\n    OR\n        MEMBERS->''->>'role'", ROLES);
    SkeletonThenText(head + "->>'role'" + ROLES + "\n    OR\n        MEMBERS->''->>'role'" + ROLES, "\n    )\n");
  }

  /** The words of a clause. */
  function Words(c: Clause): string {
    match c
    case NameIs(_) => One(" NAME=", "")
    case HasLabel(_) => One(" LABELS ? ", "")
    case LacksLabel(_) => One(" (NOT LABELS ? ", ")")
    case LabelIs(_, _) => Two(" LABELS ->> ", " = ", "")
    case LabelIsNot(_, _) => Two(" LABELS ->> ", " <> ", "")
    case LabelIn(_, _) => Two(" LABELS ->> ", " = ANY (", ")")
    case LabelNotIn(_, _) => Two(" NOT(LABELS ->> ", " = ANY (", "))")
    case CanRead(_) => ReadSkeleton()
  }

  lemma SkeletonOfClause(c: Clause)
    ensures Skeleton(ClauseText(c)) == Words(c)
  {
    match c
    case NameIs(n) => SkeletonOfOne(" NAME=", n, "");
    case HasLabel(n) => SkeletonOfOne(" LABELS ? ", n, "");
    case LacksLabel(n) => SkeletonOfOne(" (NOT LABELS ? ", n, ")");
    case LabelIs(n, m) => SkeletonOfTwo(" LABELS ->> ", n, " = ", m, "");
    case LabelIsNot(n, m) => SkeletonOfTwo(" LABELS ->> ", n, " <> ", m, "");
    case LabelIn(n, m) => SkeletonOfTwo(" LABELS ->> ", n, " = ANY (", m, ")");
    case LabelNotIn(n, m) => SkeletonOfTwo(" NOT(LABELS ->> ", n, " = ANY (", m, "))");
    case CanRead(n) => ReadClauseText(n);
  }

  lemma WordsDiffer()
    ensures |One(" NAME=", "")| == 7 && |One(" LABELS ? ", "")| == 11 && |One(" (NOT LABELS ? ", ")")| == 17
    ensures |Two(" LABELS ->> ", " = ", "")| == 17 && |Two(" LABELS ->> ", " <> ", "")| == 18
    ensures |Two(" LABELS ->> ", " = ANY (", ")")| == 23 && |Two(" NOT(LABELS ->> ", " = ANY (", "))")| == 28
    ensures |ReadSkeleton()| > 28
  {
  }

  /** The text of every clause reads back as the clause. */
  lemma ClauseReadsBack(c: Clause)
    ensures ReadClause(ClauseText(c)) == Some(c)
  {
    ClausePlaceholders(c);
    SkeletonOfClause(c);
    WordsDiffer();
  }
}
