/** Change detection between two states of a resource. */
module Diff {
  import opened Common

  datatype Value =
    | Null
    | Bool(flag: bool)
    | Number(text: string)
    | String(chars: string)
    | Array(items: seq<Value>)
    | Object(fields: map<string, Value>)

  /** The diffable part of an application or a device. */
  datatype Content = Content(
    labels: map<string, string>, annotations: map<string, string>, finalizers: seq<string>, data: Value)

  /** A place two levels below the root: section and key. */
  type Cell = (string, string)

  /** `v.as_object()`, where anything but an object counts as empty. */
  function Fields(v: Value): map<string, Value> {
    if v.Object? then v.fields else map[]
  }

  function Section(v: Value, s: string): Value {
    if s in Fields(v) then Fields(v)[s] else Null
  }

  function Get(m: map<string, Value>, k: string): Option<Value> {
    if k in m then Some(m[k]) else None
  }

  /** The value of a cell. A missing or non-object section counts as empty. */
  function At(v: Value, c: Cell): Option<Value> {
    Get(Fields(Section(v, c.0)), c.1)
  }

  function ChangedKeys(a: map<string, Value>, b: map<string, Value>): set<string> {
    set k | k in a.Keys + b.Keys && Get(a, k) != Get(b, k)
  }

  function In(s: string, keys: set<string>): set<Cell> {
    set k | k in keys :: (s, k)
  }

  function SectionCells(a: Value, b: Value, s: string): set<Cell> {
    In(s, ChangedKeys(Fields(a), Fields(b)))
  }

  /** All cells whose value differs. */
  function ChangedCells(a: Value, b: Value): set<Cell> {
    set s, k | s in Fields(a).Keys + Fields(b).Keys
            && k in ChangedKeys(Fields(Section(a, s)), Fields(Section(b, s))) :: (s, k)
  }

  function PathOf(c: Cell): string {
    "." + c.0 + "." + c.1
  }

  function CellPaths(cells: seq<Cell>): seq<string> {
    seq(|cells|, i requires 0 <= i < |cells| => PathOf(cells[i]))
  }

  predicate MetadataDiffers(a: Content, b: Content) {
    a.annotations != b.annotations || a.labels != b.labels || a.finalizers != b.finalizers
  }

  const METADATA := ".metadata"

  /** The set of paths that differ between two states. */
  function ChangedPaths(a: Content, b: Content): set<string> {
    (if MetadataDiffers(a, b) then {METADATA} else {}) +
    (set c | c in ChangedCells(a.data, b.data) :: PathOf(c))
  }

  // ----- the algorithm -----

  /** What is appended to the paths are those of the cells, as many as there are cells. */
  ghost predicate Adds(out: seq<string>, paths: seq<string>, cells: set<Cell>) {
    && paths <= out && |out| == |paths| + |cells|
    && Elements(out[|paths|..]) == set c | c in cells :: PathOf(c)
  }

  lemma EnumerationAdds(out: seq<string>, paths: seq<string>, cells: seq<Cell>, all: set<Cell>)
    requires out == paths + CellPaths(cells) && Enumerates(cells, all)
    ensures Adds(out, paths, all)
  {
    PathsAreCells(cells, all);
    EnumerationSize(cells, all);
    assert out[|paths|..] == CellPaths(cells);
  }

  method Keys(m: map<string, Value>) returns (keys: seq<string>)
    ensures Enumerates(keys, m.Keys)
  {
    keys := [];
    var todo := m.Keys;
    while todo != {}
      invariant todo <= m.Keys && Enumerates(keys, m.Keys - todo)
    {
      var k :| k in todo;
      keys := keys + [k];
      todo := todo - {k};
    }
  }

  /** Last level: compares two maps, and reports their differing keys below section `s`. */
  method DiffMaps(current: map<string, Value>, new_: map<string, Value>, paths: seq<string>, s: string)
    returns (out: seq<string>, ghost cells: seq<Cell>)
    ensures out == paths + CellPaths(cells)
    ensures Enumerates(cells, SectionCells(Object(current), Object(new_), s))
  {
    out, cells := paths, [];
    var checked: set<string> := {};
    var keys := Keys(current);
    for i := 0 to |keys|
      invariant checked == Elements(keys[..i])
      invariant out == paths + CellPaths(cells)
      invariant Enumerates(cells, In(s, ChangedKeys(current, new_) * checked))
    {
      var k := keys[i];
      assert k !in checked by { assert Distinct(keys); }
      Report(cells, s, ChangedKeys(current, new_), checked, k);
      checked := checked + {k};
      if k !in new_ || current[k] != new_[k] {
        out := out + ["." + s + "." + k];
        cells := cells + [(s, k)];
      }
    }
    assert checked == current.Keys;
    keys := Keys(new_);
    ghost var done := checked;
    for i := 0 to |keys|
      invariant done == checked + Elements(keys[..i])
      invariant out == paths + CellPaths(cells)
      invariant Enumerates(cells, In(s, ChangedKeys(current, new_) * done))
    {
      var k := keys[i];
      assert k !in keys[..i] by { assert Distinct(keys); }
      Report(cells, s, ChangedKeys(current, new_), done, k);
      done := done + {k};
      if k !in checked {
        out := out + ["." + s + "." + k];
        cells := cells + [(s, k)];
      }
    }
    assert ChangedKeys(current, new_) * done == ChangedKeys(current, new_);
  }

  /** One more key is dealt with, and reported if it changed. */
  lemma Report(cells: seq<Cell>, s: string, changed: set<string>, done: set<string>, k: string)
    requires Enumerates(cells, In(s, changed * done))
    ensures k in done || k !in changed ==> Enumerates(cells, In(s, changed * (done + {k})))
    ensures k !in done && k in changed ==> Enumerates(cells + [(s, k)], In(s, changed * (done + {k})))
    ensures CellPaths(cells + [(s, k)]) == CellPaths(cells) + ["." + s + "." + k]
  {
    if k in done || k !in changed {
      assert changed * (done + {k}) == changed * done;
    } else {
      assert changed * (done + {k}) == changed * done + {k};
      assert In(s, changed * (done + {k})) == In(s, changed * done) + {(s, k)};
      assert (s, k) !in cells;
    }
  }

  /** A section against a section, either of which may not be an object. */
  method DiffMapsData(current: Value, new_: Value, paths: seq<string>, s: string)
    returns (out: seq<string>, ghost cells: seq<Cell>)
    ensures out == paths + CellPaths(cells)
    ensures Enumerates(cells, SectionCells(current, new_, s))
    ensures Adds(out, paths, SectionCells(current, new_, s))
  {
    match (current, new_) {
      case (Object(a), Object(b)) => out, cells := DiffMaps(a, b, paths, s);
      case (Object(a), _) => out, cells := AllKeys(a, paths, s);
      case (_, Object(b)) => out, cells := AllKeys(b, paths, s);
      case _ => out, cells := paths, [];
    }
    EnumerationAdds(out, paths, cells, SectionCells(current, new_, s));
  }

  method AllKeys(m: map<string, Value>, paths: seq<string>, s: string)
    returns (out: seq<string>, ghost cells: seq<Cell>)
    ensures out == paths + CellPaths(cells)
    ensures Enumerates(cells, In(s, m.Keys))
  {
    var keys := Keys(m);
    out := paths + seq(|keys|, i requires 0 <= i < |keys| => "." + s + "." + keys[i]);
    cells := seq(|keys|, i requires 0 <= i < |keys| => (s, keys[i]));
    forall k | k in m ensures (s, k) in cells {
      var i :| 0 <= i < |keys| && keys[i] == k;
      assert cells[i] == (s, k);
    }
  }

  /** The cells of some sections that differ. */
  function CellsIn(a: map<string, Value>, b: map<string, Value>, sections: set<string>): set<Cell> {
    set c | c in ChangedCells(Object(a), Object(b)) && c.0 in sections
  }

  /** The top level: section by section. */
  method DiffSection(current: map<string, Value>, new_: map<string, Value>, paths: seq<string>)
    returns (out: seq<string>, ghost cells: seq<Cell>)
    ensures out == paths + CellPaths(cells)
    ensures Enumerates(cells, ChangedCells(Object(current), Object(new_)))
    ensures Adds(out, paths, ChangedCells(Object(current), Object(new_)))
  {
    out, cells := paths, [];
    var checked: set<string> := {};
    var keys := Keys(current);
    for i := 0 to |keys|
      invariant checked == Elements(keys[..i])
      invariant out == paths + CellPaths(cells)
      invariant Enumerates(cells, CellsIn(current, new_, checked))
    {
      var k := keys[i];
      assert k !in checked by { assert Distinct(keys); }
      checked := checked + {k};
      out, cells := DiffOneSection(current, new_, k, out, paths, cells, checked - {k});
      assert checked - {k} + {k} == checked && keys[..i + 1] == keys[..i] + [k];
    }
    assert checked == current.Keys;
    keys := Keys(new_);
    ghost var done := checked;
    for i := 0 to |keys|
      invariant done == checked + Elements(keys[..i])
      invariant out == paths + CellPaths(cells)
      invariant Enumerates(cells, CellsIn(current, new_, done))
    {
      var k := keys[i];
      assert k !in keys[..i] by { assert Distinct(keys); }
      assert keys[..i + 1] == keys[..i] + [k];
      if k in checked {
        assert done + {k} == done;
      } else {
        out, cells := DiffOneSection(current, new_, k, out, paths, cells, done);
      }
      done := done + {k};
    }
    assert CellsIn(current, new_, done) == ChangedCells(Object(current), Object(new_));
    EnumerationAdds(out, paths, cells, ChangedCells(Object(current), Object(new_)));
  }

  /** The body of both loops: a section that is missing on one side counts as null there. */
  method DiffOneSection(current: map<string, Value>, new_: map<string, Value>, s: string, paths: seq<string>,
                        ghost start: seq<string>, ghost cells: seq<Cell>, ghost done: set<string>)
    returns (out: seq<string>, ghost cells': seq<Cell>)
    requires s !in done && s in current.Keys + new_.Keys
    requires paths == start + CellPaths(cells) && Enumerates(cells, CellsIn(current, new_, done))
    ensures out == start + CellPaths(cells')
    ensures Enumerates(cells', CellsIn(current, new_, done + {s}))
  {
    ghost var more;
    out, more := DiffMapsData(
      if s in current then current[s] else Null, if s in new_ then new_[s] else Null, paths, s);
    AddSection(current, new_, cells, more, done, s);
    cells' := cells + more;
  }

  lemma AddSection(a: map<string, Value>, b: map<string, Value>, cells: seq<Cell>, more: seq<Cell>,
                   done: set<string>, s: string)
    requires s !in done && s in a.Keys + b.Keys
    requires Enumerates(cells, CellsIn(a, b, done))
    requires Enumerates(more, SectionCells(Section(Object(a), s), Section(Object(b), s), s))
    ensures Enumerates(cells + more, CellsIn(a, b, done + {s}))
    ensures CellPaths(cells + more) == CellPaths(cells) + CellPaths(more)
  {
    var all := CellsIn(a, b, done + {s});
    var section := SectionCells(Section(Object(a), s), Section(Object(b), s), s);
    forall c: Cell ensures c in section <==> c in all && c.0 == s {
      if c.0 == s && c.1 in ChangedKeys(Fields(Section(Object(a), s)), Fields(Section(Object(b), s))) {
        assert c in section;
      }
    }
    forall c | c in all ensures c in cells + more {
      assert c.0 == s ==> c in section;
    }
    forall c | c in cells + more ensures c in all {
      assert c in more ==> c in section;
    }
    forall i, j | 0 <= i < |cells| && 0 <= j < |more| ensures cells[i] != more[j] {
      assert cells[i] in cells && more[j] in section;
    }
  }

  /** Exactness of the change detection: the metadata path if and only if the metadata differs, and
      then one path for each cell whose value differs, and for no other. */
  method DiffPaths(current: Content, new_: Content) returns (paths: seq<string>, ghost cells: seq<Cell>)
    ensures paths == (if MetadataDiffers(current, new_) then [METADATA] else []) + CellPaths(cells)
    ensures Enumerates(cells, ChangedCells(current.data, new_.data))
    ensures forall p :: p in paths <==> p in ChangedPaths(current, new_)
    ensures NoneCollide(Fields(current.data).Keys + Fields(new_.data).Keys) ==> Distinct(paths)
  {
    paths := [];
    if current.annotations != new_.annotations
      || current.labels != new_.labels
      || current.finalizers != new_.finalizers
    {
      paths := paths + [".metadata"];
    }
    ghost var meta := paths;
    paths, cells := DiffSection(Fields(current.data), Fields(new_.data), paths);
    assert ChangedCells(Object(Fields(current.data)), Object(Fields(new_.data)))
        == ChangedCells(current.data, new_.data);
    PathsAreCells(cells, ChangedCells(current.data, new_.data));
    if NoneCollide(Fields(current.data).Keys + Fields(new_.data).Keys) {
      PathsAreDistinct(current, new_, cells);
      assert paths == Reported(current, new_, cells);
    }
  }

  lemma PathsAreCells(cells: seq<Cell>, all: set<Cell>)
    requires Enumerates(cells, all)
    ensures forall p :: p in CellPaths(cells) <==> p in (set c | c in all :: PathOf(c))
  {
    forall p | p in (set c | c in all :: PathOf(c)) ensures p in CellPaths(cells) {
      var c :| c in all && PathOf(c) == p;
      assert c in cells;
      var i :| 0 <= i < |cells| && cells[i] == c;
      assert CellPaths(cells)[i] == p;
    }
  }

  // ----- what the paths mean -----

  /** A cell is among the changed ones exactly when its value differs. */
  lemma ChangedCellsAreExact(a: Value, b: Value, c: Cell)
    ensures c in ChangedCells(a, b) <==> At(a, c) != At(b, c)
  {
    if At(a, c) != At(b, c) {
      assert c.1 in ChangedKeys(Fields(Section(a, c.0)), Fields(Section(b, c.0)));
      assert c.0 in Fields(a).Keys + Fields(b).Keys;
    }
  }

  /** Nothing is reported exactly if labels, annotations, finalizers and all cells are the same. */
  lemma NothingReportedMeansEqual(a: Content, b: Content)
    ensures ChangedPaths(a, b) == {} <==>
      && a.labels == b.labels && a.annotations == b.annotations && a.finalizers == b.finalizers
      && forall c: Cell :: At(a.data, c) == At(b.data, c)
  {
    forall c: Cell ensures c in ChangedCells(a.data, b.data) <==> At(a.data, c) != At(b.data, c) {
      ChangedCellsAreExact(a.data, b.data, c);
    }
    if c :| c in ChangedCells(a.data, b.data) {
      assert PathOf(c) in ChangedPaths(a, b);
    }
    if MetadataDiffers(a, b) {
      assert METADATA in ChangedPaths(a, b);
    }
  }

  /** The paths of a section can also be paths of another one. */
  predicate Collide(s: string, t: string) {
    s != t && (s + "." <= t || t + "." <= s)
  }

  lemma SamePath(s: string, k: string, t: string, l: string)
    requires PathOf((s, k)) == PathOf((t, l)) && |s| <= |t|
    ensures (s == t && k == l) || s + "." <= t
  {
    var u := s + "." + k;
    assert u == PathOf((s, k))[1..] == PathOf((t, l))[1..] == t + "." + l;
    assert u[..|s|] == s == t[..|s|];
    assert u[|s|] == '.';
    if |s| == |t| {
      assert k == u[|s| + 1..] == l;
    } else {
      assert t[|s|] == u[|s|];
      assert (s + ".") == t[..|s| + 1];
    }
  }

  /** Exactly when two sections have a path in common: when one name is the other one, a dot and more. Dots as such do
      no harm. */
  lemma SectionsCollide(s: string, t: string)
    requires s != t
    ensures (exists k, l :: PathOf((s, k)) == PathOf((t, l))) <==> Collide(s, t)
  {
    if k, l :| PathOf((s, k)) == PathOf((t, l)) {
      if |s| <= |t| {
        SamePath(s, k, t, l);
      } else {
        SamePath(t, l, s, k);
      }
    }
    if s + "." <= t {
      CommonPath(s, t);
    } else if t + "." <= s {
      CommonPath(t, s);
      assert PathOf((t, s[|t| + 1..] + ".")) == PathOf((s, ""));
    }
  }

  lemma CommonPath(s: string, t: string)
    requires s + "." <= t
    ensures PathOf((s, t[|s| + 1..] + ".")) == PathOf((t, ""))
  {
    assert t == s + "." + t[|s| + 1..];
  }

  /** The metadata path is no section's. */
  lemma PathIsNotMetadata(c: Cell)
    ensures PathOf(c) != METADATA
  {
    assert PathOf(c)[|c.0| + 1] == '.';
    assert '.' !in METADATA[1..] by {
      assert METADATA[1..] == "metadata";
    }
  }

  ghost predicate NoneCollide(sections: set<string>) {
    forall s, t :: s in sections && t in sections ==> !Collide(s, t)
  }

  /** Without colliding sections a path names one cell. */
  lemma PathsAreInjective(c: Cell, d: Cell)
    requires !Collide(c.0, d.0)
    ensures PathOf(c) == PathOf(d) <==> c == d
  {
    if PathOf(c) == PathOf(d) {
      assert c == (c.0, c.1) && d == (d.0, d.1);
      if c.0 != d.0 {
        SectionsCollide(c.0, d.0);
      } else {
        assert c.1 == PathOf(c)[|c.0| + 2..] == d.1;
      }
    }
  }

  predicate SectionsIn(v: Value, sections: set<string>) {
    Fields(v).Keys <= sections
  }

  predicate DotFreeSections(v: Value) {
    forall s :: s in Fields(v) ==> '.' !in s
  }

  /** Dot-free names do not collide. */
  lemma DotFreeIsEnough(s: string, t: string)
    requires '.' !in s && '.' !in t
    ensures !Collide(s, t)
  {
    PrefixHasDot(s, t);
    PrefixHasDot(t, s);
  }

  lemma PrefixHasDot(s: string, t: string)
    ensures s + "." <= t ==> '.' in t
  {
    if s + "." <= t {
      assert t[|s|] == '.';
    }
  }

  /** The paths that a diff reports, whatever the order of the cells. */
  function Reported(a: Content, b: Content, cells: seq<Cell>): seq<string> {
    (if MetadataDiffers(a, b) then [METADATA] else []) + CellPaths(cells)
  }

  /** Without colliding sections every path is reported at most once. */
  lemma PathsAreDistinct(a: Content, b: Content, cells: seq<Cell>)
    requires NoneCollide(Fields(a.data).Keys + Fields(b.data).Keys)
    requires Enumerates(cells, ChangedCells(a.data, b.data))
    ensures Distinct(Reported(a, b, cells))
  {
    forall i | 0 <= i < |cells| ensures CellPaths(cells)[i] != METADATA {
      PathIsNotMetadata(cells[i]);
    }
    forall i, j | 0 <= i < j < |cells| ensures CellPaths(cells)[i] != CellPaths(cells)[j] {
      assert cells[i] in ChangedCells(a.data, b.data) && cells[j] in ChangedCells(a.data, b.data);
      PathsAreInjective(cells[i], cells[j]);
    }
  }

  /** All diffs over these sections report every path at most once. */
  ghost predicate AlwaysDistinct(sections: set<string>) {
    forall a: Content, b: Content, cells: seq<Cell> ::
      SectionsIn(a.data, sections) && SectionsIn(b.data, sections) && Enumerates(cells, ChangedCells(a.data, b.data)) ==>
        Distinct(Reported(a, b, cells))
  }

  /** That is so exactly if none of the sections collide. */
  lemma DistinctExactly(sections: set<string>)
    ensures AlwaysDistinct(sections) <==> NoneCollide(sections)
  {
    if NoneCollide(sections) {
      forall a: Content, b: Content, cells: seq<Cell> |
        SectionsIn(a.data, sections) && SectionsIn(b.data, sections) && Enumerates(cells, ChangedCells(a.data, b.data))
        ensures Distinct(Reported(a, b, cells))
      {
        PathsAreDistinct(a, b, cells);
      }
    }
    if !NoneCollide(sections) {
      var s, t :| s in sections && t in sections && Collide(s, t);
      CollisionIsReported(s, t, sections);
    }
  }

  lemma CollisionIsReported(s: string, t: string, sections: set<string>)
    requires s in sections && t in sections && Collide(s, t)
    ensures !AlwaysDistinct(sections)
  {
    SectionsCollide(s, t);
    var k, l :| PathOf((s, k)) == PathOf((t, l));
    var data := Object(map[s := Object(map[k := Null]), t := Object(map[l := Null])]);
    var a, b := Content(map[], map[], [], data), Content(map[], map[], [], Null);
    var cells := [(s, k), (t, l)];
    forall c: Cell ensures c in ChangedCells(data, Null) <==> c == (s, k) || c == (t, l) {
      ChangedCellsAreExact(data, Null, c);
    }
    assert Reported(a, b, cells)[0] == Reported(a, b, cells)[1];
    assert Enumerates(cells, ChangedCells(a.data, b.data));
  }

  /** Copy one cell from another value. */
  function CopyCell(v: Value, from: Value, c: Cell): Value {
    var fields := Fields(Section(v, c.0));
    var fields' := match At(from, c) { case Some(x) => fields[c.1 := x] case None => fields - {c.1} };
    Object(Fields(v)[c.0 := Object(fields')])
  }

  function CopyCells(v: Value, from: Value, cells: seq<Cell>): Value {
    if cells == [] then v
    else CopyCell(CopyCells(v, from, cells[..|cells| - 1]), from, cells[|cells| - 1])
  }

  lemma {:induction false} CopyCellsAt(v: Value, from: Value, cells: seq<Cell>, c: Cell)
    ensures At(CopyCells(v, from, cells), c) == At(if c in cells then from else v, c)
  {
    if cells != [] {
      var n := |cells| - 1;
      var w := CopyCells(v, from, cells[..n]);
      CopyCellsAt(v, from, cells[..n], c);
      assert At(CopyCell(w, from, cells[n]), c) == if c == cells[n] then At(from, c) else At(w, c);
    }
  }

  /** The reported cells are a patch, and a minimal one: copying a set of cells from the new into
      the current state makes all sections agree exactly when it includes every reported cell. */
  lemma ReportedCellsAreThePatch(current: Value, new_: Value, cells: seq<Cell>)
    ensures (forall c :: At(CopyCells(current, new_, cells), c) == At(new_, c))
      <==> ChangedCells(current, new_) <= set c | c in cells
  {
    var patched := CopyCells(current, new_, cells);
    forall c
      ensures At(patched, c) == At(if c in cells then new_ else current, c)
      ensures c in ChangedCells(current, new_) <==> At(current, c) != At(new_, c)
    {
      CopyCellsAt(current, new_, cells, c);
      ChangedCellsAreExact(current, new_, c);
    }
    if forall c :: At(patched, c) == At(new_, c) {
      forall c | c in ChangedCells(current, new_) ensures c in cells {
        assert At(patched, c) == At(new_, c);
      }
    }
  }

  lemma RemoveAt(a: seq<Cell>, i: nat, xs: set<Cell>)
    requires Enumerates(a, xs) && i < |a|
    ensures Enumerates(a[..i] + a[i + 1..], xs - {a[i]})
    ensures multiset(CellPaths(a)) == multiset(CellPaths(a[..i] + a[i + 1..])) + multiset{PathOf(a[i])}
  {
    var rest := a[..i] + a[i + 1..];
    assert a == a[..i] + [a[i]] + a[i + 1..];
    forall c | c in xs - {a[i]} ensures c in rest {
      assert c in a;
    }
    assert CellPaths(a) == CellPaths(a[..i]) + [PathOf(a[i])] + CellPaths(a[i + 1..]);
    assert CellPaths(rest) == CellPaths(a[..i]) + CellPaths(a[i + 1..]);
  }

  lemma {:induction false} EnumerationsMapAlike(a: seq<Cell>, b: seq<Cell>, xs: set<Cell>)
    requires Enumerates(a, xs) && Enumerates(b, xs)
    ensures multiset(CellPaths(a)) == multiset(CellPaths(b))
    decreases |a|
  {
    if a == [] {
      EnumerationSize(a, xs);
      EnumerationSize(b, xs);
    } else {
      assert a[0] in xs && a[0] in b;
      var j :| 0 <= j < |b| && b[j] == a[0];
      RemoveAt(a, 0, xs);
      RemoveAt(b, j, xs);
      EnumerationsMapAlike(a[..0] + a[1..], b[..j] + b[j + 1..], xs - {a[0]});
    }
  }

  /** Swapping the arguments of the diff permutes its paths. */
  lemma SwappedDiffIsPermuted(a: Content, b: Content, forth: seq<Cell>, back: seq<Cell>)
    requires Enumerates(forth, ChangedCells(a.data, b.data))
    requires Enumerates(back, ChangedCells(b.data, a.data))
    ensures multiset(CellPaths(forth)) == multiset(CellPaths(back))
    ensures MetadataDiffers(a, b) == MetadataDiffers(b, a)
    ensures ChangedPaths(a, b) == ChangedPaths(b, a)
  {
    forall c ensures c in ChangedCells(a.data, b.data) <==> c in ChangedCells(b.data, a.data) {
      ChangedCellsAreExact(a.data, b.data, c);
      ChangedCellsAreExact(b.data, a.data, c);
    }
    assert ChangedCells(a.data, b.data) == ChangedCells(b.data, a.data);
    EnumerationsMapAlike(forth, back, ChangedCells(a.data, b.data));
  }

  /** The test of `advance_from`: some reported path starts with ".spec" exactly when some changed
      cell lies in a section whose name starts with "spec". */
  lemma SpecPathsAreSpecCells(a: Content, b: Content)
    ensures (exists p :: p in ChangedPaths(a, b) && StartsWith(p, ".spec"))
      <==> (exists c :: c in ChangedCells(a.data, b.data) && StartsWith(c.0, "spec"))
  {
    forall c: Cell ensures StartsWith(PathOf(c), ".spec") <==> StartsWith(c.0, "spec") {
      SpecPrefix(c);
    }
    assert METADATA[1] == 'm' && ".spec"[1] == 's';
    assert !StartsWith(METADATA, ".spec") by {
      assert METADATA[..5][1] != ".spec"[1];
    }
    if c :| c in ChangedCells(a.data, b.data) && StartsWith(c.0, "spec") {
      assert PathOf(c) in ChangedPaths(a, b);
    }
  }

  lemma SpecPrefix(c: Cell)
    ensures StartsWith(PathOf(c), ".spec") <==> StartsWith(c.0, "spec")
  {
    var p := PathOf(c);
    if StartsWith(c.0, "spec") {
      assert p[..5] == "." + c.0[..4];
    }
    if StartsWith(p, ".spec") {
      assert ".spec"[1] == 's' && ".spec"[2] == 'p' && ".spec"[3] == 'e' && ".spec"[4] == 'c';
      assert p[1] == 's' && p[2] == 'p' && p[3] == 'e' && p[4] == 'c';
      assert p[|c.0| + 1] == '.';
      assert |c.0| >= 4;
      assert c.0[..4] == p[1..5];
    }
  }
}
