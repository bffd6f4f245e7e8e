/** The builder of SELECT statements, and what the statements mean in the three-valued logic of SQL. */
module Select {
  import opened Common
  import opened Auth

  // ----- three-valued logic -----

  datatype Tri = True | False | Unknown

  function Not(a: Tri): Tri {
    match a { case True => False case False => True case Unknown => Unknown }
  }

  function And(a: Tri, b: Tri): Tri {
    if a == False || b == False then False else if a == True && b == True then True else Unknown
  }

  function Or(a: Tri, b: Tri): Tri {
    if a == True || b == True then True else if a == False && b == False then False else Unknown
  }

  function Truth(b: bool): Tri {
    if b then True else False
  }

  /** `a = b`, where a missing value is NULL. */
  function Equal(a: Option<string>, b: string): Tri {
    match a { case Some(x) => Truth(x == b) case None => Unknown }
  }

  /** `a = ANY (list)`: over an empty list it is false even for NULL. */
  function EqualAny(a: Option<string>, list: seq<string>): Tri {
    if list == [] then False
    else match a { case Some(x) => Truth(x in list) case None => Unknown }
  }

  // ----- rows -----

  /** A row of the applications or devices table; nullable columns are options. */
  datatype Row = Row(name: string, labels: Option<map<string, string>>, owner: Option<string>, members: Option<map<string, string>>)

  /** `LABELS ->> key` */
  function LabelOf(row: Row, key: string): Option<string> {
    if row.labels.Some? && key in row.labels.value then Some(row.labels.value[key]) else None
  }

  /** `LABELS ? key` */
  function HasLabelTri(row: Row, key: string): Tri {
    match row.labels { case Some(labels) => Truth(key in labels) case None => Unknown }
  }

  const READERS := ["reader", "manager", "admin"]

  /** `MEMBERS -> member ->> 'role'` */
  function RoleOf(row: Row, member: string): Option<string> {
    if row.members.Some? && member in row.members.value then Some(row.members.value[member]) else None
  }

  // ----- conditions, and the clauses they compile to -----

  datatype Operation =
    | Exists(key: string)
    | NotExists(key: string)
    | Eq(key: string, value: string)
    | NotEq(key: string, value: string)
    | In(key: string, values: seq<string>)
    | NotIn(key: string, values: seq<string>)

  /** What the caller asks for. */
  datatype Condition = Named(name: string) | Labelled(op: Operation) | ReadableBy(user: string)

  /** The direct meaning of a condition. A label that must have a value, or not have one, must be there; only an
      empty list excludes nothing. */
  predicate Holds(c: Condition, row: Row) {
    match c
    case Named(name) => row.name == name
    case Labelled(Exists(l)) => LabelOf(row, l).Some?
    case Labelled(NotExists(l)) => row.labels.Some? && l !in row.labels.value
    case Labelled(Eq(l, v)) => LabelOf(row, l) == Some(v)
    case Labelled(NotEq(l, v)) => LabelOf(row, l).Some? && LabelOf(row, l) != Some(v)
    case Labelled(In(l, vs)) => LabelOf(row, l).Some? && LabelOf(row, l).value in vs
    case Labelled(NotIn(l, vs)) => vs == [] || (LabelOf(row, l).Some? && LabelOf(row, l).value !in vs)
    case ReadableBy(u) => row.owner == Some(u) || IsReader(RoleOf(row, u)) || IsReader(RoleOf(row, ""))
  }

  predicate IsReader(role: Option<string>) {
    role.Some? && role.value in READERS
  }

  datatype Param = Text(text: string) | List(items: seq<string>)

  datatype SqlType = Varchar | VarcharArray | OtherType

  /** A clause of the statement; the numbers are positions of parameters, counted from one. */
  datatype Clause =
    | NameIs(n: nat)
    | HasLabel(n: nat)
    | LacksLabel(n: nat)
    | LabelIs(n: nat, m: nat)
    | LabelIsNot(n: nat, m: nat)
    | LabelIn(n: nat, m: nat)
    | LabelNotIn(n: nat, m: nat)
    | CanRead(n: nat)

  function Decimal(n: nat): string {
    (if n < 10 then "" else Decimal(n / 10)) + ["0123456789"[n % 10]]
  }

  function Placeholder(n: nat): string {
    "$" + Decimal(n)
  }

  const ROLES := " IN ('reader', 'manager', 'admin')"

  /** The text of a clause. */
  function ClauseText(c: Clause): string {
    match c
    case NameIs(n) => " NAME=" + Placeholder(n)
    case HasLabel(n) => " LABELS ? " + Placeholder(n)
    case LacksLabel(n) => " (NOT LABELS ? " + Placeholder(n) + ")"
    case LabelIs(n, m) => " LABELS ->> " + Placeholder(n) + " = " + Placeholder(m)
    case LabelIsNot(n, m) => " LABELS ->> " + Placeholder(n) + " <> " + Placeholder(m)
    case LabelIn(n, m) => " LABELS ->> " + Placeholder(n) + " = ANY (" + Placeholder(m) + ")"
    case LabelNotIn(n, m) => " NOT(LABELS ->> " + Placeholder(n) + " = ANY (" + Placeholder(m) + "))"
    case CanRead(n) =>
      "\n    (\n        OWNER=" + Placeholder(n)
      + "\n    OR\n        MEMBERS->" + Placeholder(n) + "->>'role'" + ROLES
      + "\n    OR\n        MEMBERS->''->>'role'" + ROLES + "\n    )\n"
  }

  /** The text of a statement under construction, piece by piece. */
  datatype Piece = Raw(text: string) | Where | AndWord | ClausePiece(clause: Clause)

  function PieceText(p: Piece): string {
    match p
    case Raw(text) => text
    case Where => "\nWHERE"
    case AndWord => "\nAND"
    case ClausePiece(c) => ClauseText(c)
  }

  function TextOf(pieces: seq<Piece>): string {
    if pieces == [] then "" else TextOf(pieces[..|pieces| - 1]) + PieceText(pieces[|pieces| - 1])
  }

  /** One leading WHERE, unless there is one already, and then ANDs. */
  function Connected(clauses: seq<Clause>, hasWhere: bool): seq<Piece> {
    if clauses == [] then []
    else
      var n := |clauses| - 1;
      Connected(clauses[..n], hasWhere) + [if n == 0 && !hasWhere then Where else AndWord, ClausePiece(clauses[n])]
  }

  /** All positions of the clause lead to parameters of the right kind. */
  predicate WellPlaced(c: Clause, params: seq<Param>) {
    match c
    case LabelIs(n, m) => IsText(params, n) && IsText(params, m)
    case LabelIsNot(n, m) => IsText(params, n) && IsText(params, m)
    case LabelIn(n, m) => IsText(params, n) && IsList(params, m)
    case LabelNotIn(n, m) => IsText(params, n) && IsList(params, m)
    case _ => IsText(params, c.n)
  }

  predicate IsText(params: seq<Param>, n: nat) {
    1 <= n <= |params| && params[n - 1].Text?
  }

  predicate IsList(params: seq<Param>, n: nat) {
    1 <= n <= |params| && params[n - 1].List?
  }

  /** The value of a clause, as the database computes it. */
  function Eval(c: Clause, params: seq<Param>, row: Row): Tri {
    if !WellPlaced(c, params) then Unknown
    else match c
    case NameIs(n) => Equal(Some(row.name), params[n - 1].text)
    case HasLabel(n) => HasLabelTri(row, params[n - 1].text)
    case LacksLabel(n) => Not(HasLabelTri(row, params[n - 1].text))
    case LabelIs(n, m) => Equal(LabelOf(row, params[n - 1].text), params[m - 1].text)
    case LabelIsNot(n, m) => Not(Equal(LabelOf(row, params[n - 1].text), params[m - 1].text))
    case LabelIn(n, m) => EqualAny(LabelOf(row, params[n - 1].text), params[m - 1].items)
    case LabelNotIn(n, m) => Not(EqualAny(LabelOf(row, params[n - 1].text), params[m - 1].items))
    case CanRead(n) =>
      Or(Or(Equal(row.owner, params[n - 1].text), EqualAny(RoleOf(row, params[n - 1].text), READERS)),
         EqualAny(RoleOf(row, ""), READERS))
  }

  /** The conjunction of the clauses, after a condition that was there before. */
  function EvalAll(base: Tri, clauses: seq<Clause>, params: seq<Param>, row: Row): Tri {
    if clauses == [] then base
    else
      var n := |clauses| - 1;
      And(EvalAll(base, clauses[..n], params, row), Eval(clauses[n], params, row))
  }

  function ParamsOf(c: Condition): seq<Param> {
    match c
    case Named(name) => [Text(name)]
    case ReadableBy(u) => [Text(u)]
    case Labelled(Exists(l)) => [Text(l)]
    case Labelled(NotExists(l)) => [Text(l)]
    case Labelled(Eq(l, v)) => [Text(l), Text(v)]
    case Labelled(NotEq(l, v)) => [Text(l), Text(v)]
    case Labelled(In(l, vs)) => [Text(l), List(vs)]
    case Labelled(NotIn(l, vs)) => [Text(l), List(vs)]
  }

  function TypeOf(p: Param): SqlType {
    if p.Text? then Varchar else VarcharArray
  }

  /** The clause of a condition whose parameters come after the first `k`. */
  function ClauseOf(c: Condition, k: nat): Clause {
    match c
    case Named(_) => NameIs(k + 1)
    case ReadableBy(_) => CanRead(k + 1)
    case Labelled(Exists(_)) => HasLabel(k + 1)
    case Labelled(NotExists(_)) => LacksLabel(k + 1)
    case Labelled(Eq(_, _)) => LabelIs(k + 1, k + 2)
    case Labelled(NotEq(_, _)) => LabelIsNot(k + 1, k + 2)
    case Labelled(In(_, _)) => LabelIn(k + 1, k + 2)
    case Labelled(NotIn(_, _)) => LabelNotIn(k + 1, k + 2)
  }

  function AllParams(base: seq<Param>, conditions: seq<Condition>): seq<Param> {
    if conditions == [] then base
    else AllParams(base, conditions[..|conditions| - 1]) + ParamsOf(conditions[|conditions| - 1])
  }

  function Compile(base: seq<Param>, conditions: seq<Condition>): seq<Clause> {
    if conditions == [] then []
    else
      var n := |conditions| - 1;
      Compile(base, conditions[..n]) + [ClauseOf(conditions[n], |AllParams(base, conditions[..n])|)]
  }

  function TypesOf(params: seq<Param>): seq<SqlType> {
    seq(|params|, i requires 0 <= i < |params| => TypeOf(params[i]))
  }

  // ----- correctness of the compilation -----

  /** A single clause, with its parameters where it expects them, is true exactly when its condition holds. */
  lemma ClauseMeansCondition(c: Condition, params: seq<Param>, k: nat, row: Row)
    requires k + |ParamsOf(c)| <= |params| && params[k..k + |ParamsOf(c)|] == ParamsOf(c)
    ensures WellPlaced(ClauseOf(c, k), params)
    ensures Eval(ClauseOf(c, k), params, row) == True <==> Holds(c, row)
  {
    var own := params[k..k + |ParamsOf(c)|];
    assert own[0] == params[k];
    assert |own| == 2 ==> own[1] == params[k + 1];
  }

  predicate AllPlaced(clauses: seq<Clause>, params: seq<Param>) {
    forall i :: 0 <= i < |clauses| ==> WellPlaced(clauses[i], params)
  }

  lemma LaterParamsDoNotMatter(c: Clause, params: seq<Param>, more: seq<Param>, row: Row)
    requires WellPlaced(c, params)
    ensures WellPlaced(c, params + more) && Eval(c, params + more, row) == Eval(c, params, row)
  {
  }

  lemma {:induction false} ClausesKeepMeaning(base: Tri, clauses: seq<Clause>, params: seq<Param>, more: seq<Param>, row: Row)
    requires AllPlaced(clauses, params)
    ensures AllPlaced(clauses, params + more)
    ensures EvalAll(base, clauses, params + more, row) == EvalAll(base, clauses, params, row)
  {
    if clauses != [] {
      var n := |clauses| - 1;
      ClausesKeepMeaning(base, clauses[..n], params, more, row);
      LaterParamsDoNotMatter(clauses[n], params, more, row);
      assert forall i :: 0 <= i < n ==> clauses[i] == clauses[..n][i];
    }
  }

  lemma OneMoreClause(base: Tri, clauses: seq<Clause>, c: Clause, params: seq<Param>, row: Row)
    ensures EvalAll(base, clauses + [c], params, row) == And(EvalAll(base, clauses, params, row), Eval(c, params, row))
  {
    assert (clauses + [c])[..|clauses|] == clauses;
  }

  predicate AllHold(conditions: seq<Condition>, row: Row) {
    forall c :: c in conditions ==> Holds(c, row)
  }

  lemma OneMoreHolds(conditions: seq<Condition>, c: Condition, row: Row)
    ensures AllHold(conditions + [c], row) <==> AllHold(conditions, row) && Holds(c, row)
  {
    assert forall d :: d in conditions + [c] <==> d in conditions || d == c;
  }

  /** One more condition, compiled to the next clause. */
  lemma NextClauseMeans(start: Tri, clauses: seq<Clause>, params: seq<Param>, c: Condition, row: Row)
    requires AllPlaced(clauses, params)
    ensures var clause, all := ClauseOf(c, |params|), params + ParamsOf(c);
      && AllPlaced(clauses + [clause], all)
      && (EvalAll(start, clauses + [clause], all, row) == True <==>
            EvalAll(start, clauses, params, row) == True && Holds(c, row))
  {
    ClausesKeepMeaning(start, clauses, params, ParamsOf(c), row);
    LastClause(c, params, row);
    OneMoreClause(start, clauses, ClauseOf(c, |params|), params + ParamsOf(c), row);
  }

  /** These clauses mean these conditions. */
  ghost predicate Means(start: Tri, clauses: seq<Clause>, params: seq<Param>, conditions: seq<Condition>, row: Row) {
    && AllPlaced(clauses, params)
    && (EvalAll(start, clauses, params, row) == True <==> start == True && AllHold(conditions, row))
  }

  lemma MeansNext(start: Tri, clauses: seq<Clause>, params: seq<Param>, conditions: seq<Condition>, c: Condition, row: Row)
    requires Means(start, clauses, params, conditions, row)
    ensures Means(start, clauses + [ClauseOf(c, |params|)], params + ParamsOf(c), conditions + [c], row)
  {
    NextClauseMeans(start, clauses, params, c, row);
    OneMoreHolds(conditions, c, row);
  }

  lemma {:induction false} CompileNext(base: seq<Param>, conditions: seq<Condition>)
    requires conditions != []
    ensures var n := |conditions| - 1; var params := AllParams(base, conditions[..n]);
      && Compile(base, conditions) == Compile(base, conditions[..n]) + [ClauseOf(conditions[n], |params|)]
      && AllParams(base, conditions) == params + ParamsOf(conditions[n])
  {
  }

  lemma {:induction false} CompileMeans(start: Tri, base: seq<Param>, conditions: seq<Condition>, row: Row)
    ensures Means(start, Compile(base, conditions), AllParams(base, conditions), conditions, row)
  {
    if conditions != [] {
      var n := |conditions| - 1;
      CompileMeans(start, base, conditions[..n], row);
      CompileNext(base, conditions);
      MeansNext(start, Compile(base, conditions[..n]), AllParams(base, conditions[..n]), conditions[..n], conditions[n], row);
      assert conditions == conditions[..n] + [conditions[n]];
    }
  }

  /** The compiled statement selects a row exactly when the statement it started from does and every condition
      holds. All placeholders lead to parameters of the right kind. */
  lemma {:induction false} CompiledMeansConditions(start: Tri, base: seq<Param>, conditions: seq<Condition>, row: Row)
    ensures AllPlaced(Compile(base, conditions), AllParams(base, conditions))
    ensures EvalAll(start, Compile(base, conditions), AllParams(base, conditions), row) == True
      <==> start == True && AllHold(conditions, row)
  {
    CompileMeans(start, base, conditions, row);
  }

  lemma LastClause(c: Condition, params: seq<Param>, row: Row)
    ensures WellPlaced(ClauseOf(c, |params|), params + ParamsOf(c))
    ensures Eval(ClauseOf(c, |params|), params + ParamsOf(c), row) == True <==> Holds(c, row)
  {
    assert (params + ParamsOf(c))[|params|..|params| + |ParamsOf(c)|] == ParamsOf(c);
    ClauseMeansCondition(c, params + ParamsOf(c), |params|, row);
  }

  lemma {:induction false} CompileLength(base: seq<Param>, conditions: seq<Condition>)
    ensures |Compile(base, conditions)| == |conditions|
  {
    if conditions != [] {
      CompileLength(base, conditions[..|conditions| - 1]);
    }
  }

  // ----- the builder -----

  datatype Lock = NoLock | ForUpdate | ForShare

  function LockText(lock: Lock): string {
    match lock { case NoLock => "" case ForUpdate => "FOR UPDATE" case ForShare => "FOR SHARE" }
  }

  function Join(items: seq<string>, separator: string): string {
    if items == [] then "" else if |items| == 1 then items[0] else items[0] + separator + Join(items[1..], separator)
  }

  function SortText(sort: seq<string>): string {
    if sort == [] then "" else "\nORDER BY " + Join(sort, ",")
  }

  function LimitText(word: string, n: Option<nat>): string {
    if n.Some? then word + Decimal(n.value) else ""
  }

  /** A whole statement: its clauses, and after them order, limits and lock. */
  function BuiltText(base: string, clauses: seq<Clause>, hasWhere: bool,
                     sort: seq<string>, limit: Option<nat>, offset: Option<nat>, lock: Lock): string
  {
    TextOf([Raw(base)] + Connected(clauses, hasWhere)) + SortText(sort)
    + LimitText("\nLIMIT ", limit) + LimitText("\nOFFSET ", offset) + "\n" + LockText(lock)
  }

  /** The state of a builder that started from the given base and then was asked for these conditions. */
  ghost predicate Stands(baseSelect: string, baseParams: seq<Param>, baseTypes: seq<SqlType>, baseWhere: bool,
                         conditions: seq<Condition>,
                         select: seq<Piece>, params: seq<Param>, types: seq<SqlType>, haveWhere: bool) {
    && select == [Raw(baseSelect)] + Connected(Compile(baseParams, conditions), baseWhere)
    && params == AllParams(baseParams, conditions)
    && types == baseTypes + TypesOf(Pushed(conditions))
    && haveWhere == (baseWhere || conditions != [])
  }

  /** One more condition: its connective, its clause, its parameters and their types. */
  lemma StandsNext(baseSelect: string, baseParams: seq<Param>, baseTypes: seq<SqlType>, baseWhere: bool,
                   conditions: seq<Condition>,
                   select: seq<Piece>, params: seq<Param>, types: seq<SqlType>, haveWhere: bool, c: Condition)
    requires Stands(baseSelect, baseParams, baseTypes, baseWhere, conditions, select, params, types, haveWhere)
    ensures Stands(baseSelect, baseParams, baseTypes, baseWhere, conditions + [c],
      select + [if haveWhere then AndWord else Where] + [ClausePiece(ClauseOf(c, |params|))],
      params + ParamsOf(c), types + TypesOf(ParamsOf(c)), true)
  {
    OneMore(baseParams, baseWhere, conditions, c);
  }

  class SelectBuilder {
    var select: seq<Piece>
    var params: seq<Param>
    var types: seq<SqlType>
    var haveWhere: bool
    var sort: seq<string>
    var lock: Lock
    var limit: Option<nat>
    var offset: Option<nat>

    /** What the statement started from, and what was asked for since. */
    ghost const baseSelect: string
    ghost const baseParams: seq<Param>
    ghost const baseTypes: seq<SqlType>
    ghost var baseWhere: bool
    ghost var conditions: seq<Condition>

    ghost predicate Valid()
      reads this
    {
      Stands(baseSelect, baseParams, baseTypes, baseWhere, conditions, select, params, types, haveWhere)
    }

    constructor (select: string, params: seq<Param>, types: seq<SqlType>)
      ensures Valid() && conditions == [] && !baseWhere
      ensures baseSelect == select && baseParams == params && baseTypes == types
      ensures sort == [] && lock == NoLock && limit == None && offset == None
    {
      this.select, this.params, this.types := [Raw(select)], params, types;
      haveWhere, sort, lock, limit, offset := false, [], NoLock, None, None;
      baseSelect, baseParams, baseTypes, baseWhere, conditions := select, params, types, false, [];
    }

    /** Marks the select as having a WHERE clause already. */
    method HasWhere()
      requires Valid()
      modifies this`haveWhere, this`baseWhere
      ensures Valid()
      ensures conditions == [] ==> baseWhere
      ensures conditions != [] ==> baseWhere == old(baseWhere)
    {
      haveWhere := true;
      if conditions == [] {
        baseWhere := true;
      }
    }

    method EnsureWhereOrAnd()
      modifies this`select, this`haveWhere
      ensures haveWhere && select == old(select) + [if old(haveWhere) then AndWord else Where]
    {
      if !haveWhere {
        haveWhere := true;
        select := select + [Where];
      } else {
        select := select + [AndWord];
      }
    }

    /** Pushes connective, parameters, types and clause. */
    method Push(clause: Clause, ps: seq<Param>, ts: seq<SqlType>, ghost c: Condition)
      requires Valid()
      requires clause == ClauseOf(c, |params|) && ps == ParamsOf(c) && ts == TypesOf(ps)
      modifies this`select, this`haveWhere, this`params, this`types, this`conditions
      ensures Valid() && conditions == old(conditions) + [c]
    {
      EnsureWhereOrAnd();
      params := params + ps;
      types := types + ts;
      select := select + [ClausePiece(clause)];
      StandsNext(baseSelect, baseParams, baseTypes, baseWhere, conditions,
        old(select), old(params), old(types), old(haveWhere), c);
      conditions := conditions + [c];
    }

    /** Add a name filter. */
    method Name(name: Option<string>)
      requires Valid()
      modifies this`select, this`haveWhere, this`params, this`types, this`conditions
      ensures Valid()
      ensures name.Some? ==> conditions == old(conditions) + [Named(name.value)]
      ensures name.None? ==> conditions == old(conditions)
    {
      if name.Some? {
        Push(NameIs(|params| + 1), [Text(name.value)], [Varchar], Named(name.value));
      }
    }

    /** Add one label filter. */
    method Label(op: Operation)
      requires Valid()
      modifies this`select, this`haveWhere, this`params, this`types, this`conditions
      ensures Valid() && conditions == old(conditions) + [Labelled(op)]
    {
      var n := |params|;
      match op {
        case Exists(key) =>
          Push(HasLabel(n + 1), [Text(key)], [Varchar], Labelled(op));
        case NotExists(key) =>
          Push(LacksLabel(n + 1), [Text(key)], [Varchar], Labelled(op));
        case Eq(key, value) =>
          Push(LabelIs(n + 1, n + 2), [Text(key), Text(value)], [Varchar, Varchar], Labelled(op));
        case NotEq(key, value) =>
          Push(LabelIsNot(n + 1, n + 2), [Text(key), Text(value)], [Varchar, Varchar], Labelled(op));
        case In(key, values) =>
          Push(LabelIn(n + 1, n + 2), [Text(key), List(values)], [Varchar, VarcharArray], Labelled(op));
        case NotIn(key, values) =>
          Push(LabelNotIn(n + 1, n + 2), [Text(key), List(values)], [Varchar, VarcharArray], Labelled(op));
      }
    }

    /** Add a label filter for each operation. */
    method Labels(labels: seq<Operation>)
      requires Valid()
      modifies this`select, this`haveWhere, this`params, this`types, this`conditions
      ensures Valid()
      ensures conditions == old(conditions) + LabelConditions(labels)
    {
      for i := 0 to |labels|
        invariant Valid()
        invariant conditions == old(conditions) + LabelConditions(labels[..i])
      {
        LabelsNext(old(conditions), labels, i);
        Label(labels[i]);
      }
      assert labels[..|labels|] == labels;
    }

    /** Restrict the select to what the user may read. */
    method AuthRead(user: Option<User>)
      requires Valid()
      modifies this`select, this`haveWhere, this`params, this`types, this`conditions
      ensures Valid() && conditions == old(conditions) + AuthConditions(user)
    {
      if user.None? || IsAdmin(user.value) {
        return;
      }
      var id := match user.value { case Authenticated(userId, _) => userId case Anonymous => "" };
      Push(CanRead(|params| + 1), [Text(id)], [Varchar], ReadableBy(id));
    }

    /** The statement: its clauses, and after them order, limits and lock. */
    method Build() returns (text: string, ps: seq<Param>, ts: seq<SqlType>)
      requires Valid()
      ensures text == BuiltText(baseSelect, Compile(baseParams, conditions), baseWhere, sort, limit, offset, lock)
      ensures ps == AllParams(baseParams, conditions) && ts == baseTypes + TypesOf(Pushed(conditions))
    {
      text := TextOf(select);
      text := text + SortText(sort);
      text := text + LimitText("\nLIMIT ", limit);
      text := text + LimitText("\nOFFSET ", offset);
      text := text + "\n" + LockText(lock);
      ps, ts := params, types;
    }
  }

  function LabelConditions(labels: seq<Operation>): seq<Condition> {
    if labels == [] then [] else LabelConditions(labels[..|labels| - 1]) + [Labelled(labels[|labels| - 1])]
  }

  lemma LabelsNext(before: seq<Condition>, labels: seq<Operation>, i: nat)
    requires i < |labels|
    ensures before + LabelConditions(labels[..i]) + [Labelled(labels[i])] == before + LabelConditions(labels[..i + 1])
  {
    assert labels[..i + 1][..i] == labels[..i];
  }

  function AuthConditions(user: Option<User>): seq<Condition> {
    match user
    case None => []
    case Some(u) => if IsAdmin(u) then [] else [ReadableBy(if u.Authenticated? then u.userId else "")]
  }

  /** The parameters that the conditions pushed. */
  function Pushed(conditions: seq<Condition>): seq<Param> {
    AllParams([], conditions)
  }

  /** What one more condition adds to parameters, types and text. */
  lemma OneMore(base: seq<Param>, where_: bool, conditions: seq<Condition>, c: Condition)
    ensures var params := AllParams(base, conditions);
      && AllParams(base, conditions + [c]) == params + ParamsOf(c)
      && TypesOf(Pushed(conditions + [c])) == TypesOf(Pushed(conditions)) + TypesOf(ParamsOf(c))
      && Connected(Compile(base, conditions + [c]), where_) == Connected(Compile(base, conditions), where_)
           + [if conditions == [] && !where_ then Where else AndWord, ClausePiece(ClauseOf(c, |params|))]
  {
    var all := conditions + [c];
    assert all[..|all| - 1] == conditions;
    CompileLength(base, conditions);
    var clauses := Compile(base, all);
    assert clauses[..|clauses| - 1] == Compile(base, conditions);
  }

  /** Parameters and types stay in step: those of the conditions come after those of the base statement. */
  lemma {:induction false} ParamsFollowBase(base: seq<Param>, conditions: seq<Condition>)
    ensures AllParams(base, conditions) == base + Pushed(conditions)
    ensures var types := TypesOf(Pushed(conditions));
      && |types| == |AllParams(base, conditions)| - |base|
      && forall i :: 0 <= i < |types| ==>
           types[i] == if AllParams(base, conditions)[|base| + i].Text? then Varchar else VarcharArray
  {
    if conditions != [] {
      ParamsFollowBase(base, conditions[..|conditions| - 1]);
    }
  }

  // ----- agreement with the authorization rule -----

  function RoleText(r: Role): string {
    match r { case AdminRole => "admin" case ManagerRole => "manager" case ReaderRole => "reader" }
  }

  /** The members that a column stands for: it is NULL until an application is shared. */
  function MembersOf(column: Option<map<string, Role>>): map<string, Role> {
    match column { case Some(members) => members case None => map[] }
  }

  /** The row of an application with this owner and this column of members. */
  function RowOf(owner: Option<string>, column: Option<map<string, Role>>): Row {
    Row("", None, owner, match column { case Some(members) => Some(map m | m in members :: RoleText(members[m])) case None => None })
  }

  /** The cases in which the select and the authorization rule differ for a user who is not an admin. */
  predicate Disagreement(owner: Option<string>, members: map<string, Role>, u: User) {
    var id := if u.Authenticated? then u.userId else "";
    || (owner.None? && id !in members && "" !in members)                             // unowned, but not selected
    || (owner.Some? && owner != Some(id) && id !in members && "" in members)         // shared with anonymous only
    || (owner == Some("") && u.Anonymous? && "" !in members)                         // the empty owner name
  }

  /** The restriction of the select is exactly the authorization rule for reading, except in those cases. */
  lemma AuthReadAgrees(owner: Option<string>, column: Option<map<string, Role>>, u: User)
    ensures
      var selected := AllHold(AuthConditions(Some(u)), RowOf(owner, column));
      var allowed := Authorize(owner, MembersOf(column), u, ReadPermission) == Allow;
      (selected <==> allowed) <==> IsAdmin(u) || !Disagreement(owner, MembersOf(column), u)
  {
    var row, members := RowOf(owner, column), MembersOf(column);
    forall m: string ensures IsReader(RoleOf(row, m)) <==> m in members {
      if m in members {
        assert RoleText(members[m]) in READERS;
      }
    }
    if !IsAdmin(u) {
      assert AuthConditions(Some(u))[0] in AuthConditions(Some(u));
    }
  }

  /** In particular they agree for owned applications and users with a name, unless an application is shared with
      the anonymous user. */
  lemma AuthReadAgreesForOwned(owner: string, column: Option<map<string, Role>>, u: User)
    requires owner != "" && (u.Authenticated? ==> u.userId != "")
    requires IsAdmin(u) || u.Anonymous? || "" !in MembersOf(column)
    ensures AllHold(AuthConditions(Some(u)), RowOf(Some(owner), column)) <==>
      Authorize(Some(owner), MembersOf(column), u, ReadPermission) == Allow
  {
    AuthReadAgrees(Some(owner), column, u);
  }
}
