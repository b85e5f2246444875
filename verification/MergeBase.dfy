/** The merge-base check (crates/code-bench/src/merge_base.rs). The reader's
    answers are inputs; a text is what it parses to. */
module MergeBase {
  import opened Base
  import opened Folds
  import opened Text
  import opened Runner
  import opened Gate

  datatype Shape = BaselineShape | FloorShape

  /** A file text: the document it holds, when it holds one. */
  datatype Content = BaselineText(baseline: Baseline) | FloorText(floor: Floor) | OtherText

  /** A data file of the working tree, when it is there. */
  datatype DataFile = DataFile(name: string, path: string, shape: Shape, current: Option<Content>)

  /** The answer of the reader: no merge base, no such file there, or its text. */
  datatype Read = NoBase | Absent | Present(content: Content)

  datatype MergeFailure =
    | NoMergeBase
    | Deleted(path: string)
    | Garbled(path: string)
    | Lowered(path: string, repo: string, kind: QueryKind, id: string)

  datatype Row = Row(repo: string, kind: QueryKind, precisionBps: nat, recallBps: nat)

  function CellRows(repo: string, cells: seq<Cell>): seq<Row> {
    if cells == [] then []
    else
      [Row(repo, cells[0].kind, cells[0].precisionBps.GetOr(0), cells[0].recallBps.GetOr(0))]
      + CellRows(repo, cells[1..])
  }

  function BaselineRows(repos: seq<RepoReport>): seq<Row> {
    if repos == [] then [] else CellRows(repos[0].repo, repos[0].cells) + BaselineRows(repos[1..])
  }

  function FloorRows(cells: seq<FloorCell>): seq<Row> {
    if cells == [] then []
    else [Row(cells[0].repo, cells[0].kind, cells[0].precisionBps, cells[0].recallBps)] + FloorRows(cells[1..])
  }

  predicate HasReasons(b: Baseline) {
    forall k :: 0 <= k < |b.waivers| ==> !IsBlank(b.waivers[k].reason)
  }

  /** The cells of a text, when it parses in this shape. */
  function CellsOf(shape: Shape, content: Content): Option<seq<Row>> {
    match (shape, content)
    case (BaselineShape, BaselineText(b)) => if HasReasons(b) then Some(BaselineRows(b.repos)) else None
    case (FloorShape, FloorText(f)) => Some(FloorRows(f.cells))
    case _ => None
  }

  /** The first cell of this repo and kind. */
  function Find(rows: seq<Row>, repo: string, kind: QueryKind): Option<Row> {
    if rows == [] then None
    else if rows[0].repo == repo && rows[0].kind == kind then Some(rows[0])
    else Find(rows[1..], repo, kind)
  }

  /** The rows still hold this one: the first of its name is as high. */
  predicate Holds(rows: seq<Row>, row: Row) {
    var found := Find(rows, row.repo, row.kind);
    found.Some? && found.value.precisionBps >= row.precisionBps && found.value.recallBps >= row.recallBps
  }

  /** The id of the override that lets a cell fall. */
  function CellId(name: string, repo: string, kind: QueryKind): string {
    name + ":" + repo + ":" + Subcommand(kind)
  }

  predicate Excused(file: DataFile, row: Row, overrides: seq<Override>, date: string) {
    Active(overrides, CellId(file.name, row.repo, row.kind), date).Some?
  }

  function RowFailures(file: DataFile, now: seq<Row>, overrides: seq<Override>,
                       date: string): Row -> seq<MergeFailure>
  {
    (row: Row) =>
      if Holds(now, row) || Excused(file, row, overrides, date) then []
      else [Lowered(file.path, row.repo, row.kind, CellId(file.name, row.repo, row.kind))]
  }

  function LoweredIn(file: DataFile, before: Content, now: Content, overrides: seq<Override>,
                     date: string): seq<MergeFailure>
  {
    match (CellsOf(file.shape, before), CellsOf(file.shape, now))
    case (Some(b), Some(n)) => Each(b, RowFailures(file, n, overrides, date))
    case _ => [Garbled(file.path)]
  }

  function FileFailures(file: DataFile, read: Read, overrides: seq<Override>, date: string): seq<MergeFailure> {
    match read
    case NoBase => [NoMergeBase]
    case Absent => []
    case Present(before) =>
      if file.current.None? then [Deleted(file.path)]
      else LoweredIn(file, before, file.current.value, overrides, date)
  }

  function ReadFailures(reader: string -> Read, overrides: seq<Override>, date: string): DataFile -> seq<MergeFailure> {
    (file: DataFile) => FileFailures(file, reader(file.path), overrides, date)
  }

  function CheckFailures(files: seq<DataFile>, reader: string -> Read, overrides: seq<Override>,
                         date: string): seq<MergeFailure>
  {
    Each(files, ReadFailures(reader, overrides, date))
  }

  method PushLowered(found: seq<MergeFailure>, file: DataFile, row: Row, now: seq<Row>, overrides: seq<Override>,
                     date: string)
    returns (more: seq<MergeFailure>)
    ensures more == found + RowFailures(file, now, overrides, date)(row)
  {
    more := found;
    var still := Find(now, row.repo, row.kind);
    var below := still.None? || still.value.precisionBps < row.precisionBps || still.value.recallBps < row.recallBps;
    var id := CellId(file.name, row.repo, row.kind);
    if below && Active(overrides, id, date).None? {
      more := more + [Lowered(file.path, row.repo, row.kind, id)];
    }
  }

  /** The cells of one file that are lower now and have no override. */
  method CollectLowered(file: DataFile, before: Content, now: Content, overrides: seq<Override>, date: string)
    returns (found: seq<MergeFailure>)
    ensures found == LoweredIn(file, before, now, overrides, date)
  {
    var (was, rows) := (CellsOf(file.shape, before), CellsOf(file.shape, now));
    if was.None? || rows.None? {
      return [Garbled(file.path)];
    }
    found := [];
    ghost var failures := RowFailures(file, rows.value, overrides, date);
    for k := 0 to |was.value|
      invariant found == Each(was.value[..k], failures)
    {
      EachMore(was.value, k, failures);
      found := PushLowered(found, file, was.value[k], rows.value, overrides, date);
    }
    assert was.value[..|was.value|] == was.value;
  }

  /** The failures of all files, in their order. */
  method Check(files: seq<DataFile>, reader: string -> Read, overrides: seq<Override>, date: string)
    returns (found: seq<MergeFailure>)
    ensures found == CheckFailures(files, reader, overrides, date)
  {
    found := [];
    ghost var failures := ReadFailures(reader, overrides, date);
    for k := 0 to |files|
      invariant found == Each(files[..k], failures)
    {
      EachMore(files, k, failures);
      var (file, read) := (files[k], reader(files[k].path));
      if read.NoBase? {
        found := found + [NoMergeBase];
      } else if read.Present? {
        if file.current.None? {
          found := found + [Deleted(file.path)];
        } else {
          var more := CollectLowered(file, read.content, file.current.value, overrides, date);
          found := found + more;
        }
      }
    }
    assert files[..|files|] == files;
  }

  // ---- The cells of a text, and the ids of cells.

  lemma {:induction false} CellRowsAre(repo: string, cells: seq<Cell>, row: Row)
    ensures row in CellRows(repo, cells) <==>
      exists c :: c in cells && row == Row(repo, c.kind, c.precisionBps.GetOr(0), c.recallBps.GetOr(0))
  {
    if cells != [] {
      CellRowsAre(repo, cells[1..], row);
      assert cells == [cells[0]] + cells[1..];
    }
  }

  ghost predicate HasRow(repos: seq<RepoReport>, row: Row) {
    exists r, c :: r in repos && c in r.cells
      && row == Row(r.repo, c.kind, c.precisionBps.GetOr(0), c.recallBps.GetOr(0))
  }

  lemma {:induction false} BaselineRowsAre(repos: seq<RepoReport>, row: Row)
    ensures row in BaselineRows(repos) <==> HasRow(repos, row)
  {
    if repos != [] {
      var (first, rest) := (repos[0], repos[1..]);
      BaselineRowsAre(rest, row);
      CellRowsAre(first.repo, first.cells, row);
      assert repos == [first] + rest;
      if HasRow(repos, row) && !HasRow(rest, row) {
        var r, c :| r in repos && c in r.cells
          && row == Row(r.repo, c.kind, c.precisionBps.GetOr(0), c.recallBps.GetOr(0));
        assert r == first;
      }
    }
  }

  lemma {:induction false} FloorRowsAre(cells: seq<FloorCell>, row: Row)
    ensures row in FloorRows(cells) <==>
      exists c :: c in cells && row == Row(c.repo, c.kind, c.precisionBps, c.recallBps)
  {
    if cells != [] {
      FloorRowsAre(cells[1..], row);
      assert cells == [cells[0]] + cells[1..];
    }
  }

  /** A baseline text parses when each waiver gives a reason that is not blank, a
      floor text always; the protected cells are exactly those of the document. */
  lemma CellsOfExactly(shape: Shape, content: Content, row: Row)
    ensures CellsOf(shape, content).Some? <==>
      || (shape == BaselineShape && content.BaselineText?
          && forall w :: w in content.baseline.waivers ==> exists k :: 0 <= k < |w.reason| && !IsSpace(w.reason[k]))
      || (shape == FloorShape && content.FloorText?)
    ensures CellsOf(shape, content).Some? ==>
      (row in CellsOf(shape, content).value <==>
        match content
        case BaselineText(b) => HasRow(b.repos, row)
        case FloorText(f) => exists c :: c in f.cells && row == Row(c.repo, c.kind, c.precisionBps, c.recallBps))
  {
    match content
    case BaselineText(b) => BaselineRowsAre(b.repos, row);
    case FloorText(f) => FloorRowsAre(f.cells, row);
    case OtherText =>
  }

  /** What follows the name of the file in an id. */
  lemma IdTailTells(repo: string, kind: QueryKind, repo2: string, kind2: QueryKind)
    requires repo + ":" + Subcommand(kind) == repo2 + ":" + Subcommand(kind2)
    ensures repo == repo2 && kind == kind2
  {
    var (a, b) := (repo + ":" + Subcommand(kind), repo2 + ":" + Subcommand(kind2));
    assert a[|a| - 1] == Subcommand(kind)[|Subcommand(kind)| - 1];
    assert b[|b| - 1] == Subcommand(kind2)[|Subcommand(kind2)| - 1];
    assert repo == a[..|a| - |Subcommand(kind)| - 1];
  }

  lemma CutAtColon(a: string, rest: string, b: string, rest2: string)
    requires ':' !in a && ':' !in b && a + [':'] + rest == b + [':'] + rest2
    ensures a == b && rest == rest2
  {
    SplitFirst(a, ':', rest);
    SplitFirst(b, ':', rest2);
    var whole := a + [':'] + rest;
    assert a == SplitOn(whole, ':')[0] == b;
    assert rest == whole[|a| + 1..] == rest2;
  }

  /** The id of a cell names its file, its repo and its kind: no other cell of the
      data files has it. */
  lemma CellIdTells(name: string, repo: string, kind: QueryKind, other: string, repo2: string, kind2: QueryKind)
    requires ':' !in name && ':' !in other
    ensures CellId(name, repo, kind) == CellId(other, repo2, kind2) <==> name == other && repo == repo2 && kind == kind2
  {
    var (rest, rest2) := (repo + ":" + Subcommand(kind), repo2 + ":" + Subcommand(kind2));
    assert CellId(name, repo, kind) == name + [':'] + rest && CellId(other, repo2, kind2) == other + [':'] + rest2;
    if CellId(name, repo, kind) == CellId(other, repo2, kind2) {
      CutAtColon(name, rest, other, rest2);
      IdTailTells(repo, kind, repo2, kind2);
    }
  }

  /** An override excuses the one cell whose id it has, while it is in force. */
  lemma ExcusesOneCell(file: DataFile, row: Row, excuse: Override, date: string, repo: string, kind: QueryKind)
    requires ':' !in file.name && excuse.id == CellId(file.name, repo, kind)
    ensures Excused(file, row, [excuse], date) <==>
      row.repo == repo && row.kind == kind && LexLeq(date, excuse.expires)
  {
    CellIdTells(file.name, row.repo, row.kind, file.name, repo, kind);
    assert [excuse][1..] == [] && excuse in [excuse];
    assert Active([excuse][1..], CellId(file.name, row.repo, row.kind), date).None?;
  }

  ghost predicate IsFirst(rows: seq<Row>, k: nat, repo: string, kind: QueryKind) {
    && k < |rows| && rows[k].repo == repo && rows[k].kind == kind
    && forall j :: 0 <= j < k ==> rows[j].repo != repo || rows[j].kind != kind
  }

  lemma {:induction false} FindIsFirst(rows: seq<Row>, repo: string, kind: QueryKind, k: nat)
    ensures Find(rows, repo, kind).Some? <==> exists n: nat :: IsFirst(rows, n, repo, kind)
    ensures IsFirst(rows, k, repo, kind) ==> Find(rows, repo, kind) == Some(rows[k])
  {
    if rows != [] {
      var hit := rows[0].repo == repo && rows[0].kind == kind;
      if hit {
        assert IsFirst(rows, 0, repo, kind);
      } else {
        FindIsFirst(rows[1..], repo, kind, if k > 0 then k - 1 else 0);
        if n: nat :| IsFirst(rows[1..], n, repo, kind) {
          FirstLater(rows, n, repo, kind);
        }
        if n: nat :| IsFirst(rows, n, repo, kind) {
          FirstSooner(rows, n, repo, kind);
        }
        if IsFirst(rows, k, repo, kind) {
          FirstSooner(rows, k, repo, kind);
        }
      }
    }
  }

  lemma FirstLater(rows: seq<Row>, n: nat, repo: string, kind: QueryKind)
    requires rows != [] && (rows[0].repo != repo || rows[0].kind != kind) && IsFirst(rows[1..], n, repo, kind)
    ensures IsFirst(rows, n + 1, repo, kind)
  {
    forall j | 0 < j < n + 1 ensures rows[j].repo != repo || rows[j].kind != kind {
      assert rows[j] == rows[1..][j - 1];
    }
  }

  lemma FirstSooner(rows: seq<Row>, n: nat, repo: string, kind: QueryKind)
    requires rows != [] && (rows[0].repo != repo || rows[0].kind != kind) && IsFirst(rows, n, repo, kind)
    ensures n > 0 && IsFirst(rows[1..], n - 1, repo, kind)
  {
  }

  ghost predicate HeldAt(rows: seq<Row>, k: nat, row: Row) {
    && IsFirst(rows, k, row.repo, row.kind)
    && row.precisionBps <= rows[k].precisionBps && row.recallBps <= rows[k].recallBps
  }

  /** A row is still held exactly when the first row of its repo and kind is not
      lower in either share. */
  lemma HoldsExactly(rows: seq<Row>, row: Row)
    ensures Holds(rows, row) <==> exists k: nat :: HeldAt(rows, k, row)
  {
    FindIsFirst(rows, row.repo, row.kind, 0);
    if Holds(rows, row) {
      var k: nat :| IsFirst(rows, k, row.repo, row.kind);
      FindIsFirst(rows, row.repo, row.kind, k);
      assert HeldAt(rows, k, row);
    }
    if k: nat :| HeldAt(rows, k, row) {
      FindIsFirst(rows, row.repo, row.kind, k);
    }
  }

  // ---- When the check passes.

  lemma RowsPassExactly(file: DataFile, before: seq<Row>, now: seq<Row>, overrides: seq<Override>, date: string)
    ensures Each(before, RowFailures(file, now, overrides, date)) == [] <==>
      forall row :: row in before ==> Holds(now, row) || Excused(file, row, overrides, date)
  {
    var failures := RowFailures(file, now, overrides, date);
    EachIsEmpty(before, failures);
    forall row ensures failures(row) == [] <==> Holds(now, row) || Excused(file, row, overrides, date) {
    }
  }

  /** The check is sound and complete: the cells it names as lowered are exactly
      those that are not held and not excused, under their own id. */
  lemma LoweredSaysWhatIsSo(file: DataFile, before: seq<Row>, now: seq<Row>, overrides: seq<Override>, date: string,
                            f: MergeFailure)
    ensures f in Each(before, RowFailures(file, now, overrides, date)) <==>
      exists row :: row in before && !Holds(now, row) && !Excused(file, row, overrides, date)
                    && f == Lowered(file.path, row.repo, row.kind, CellId(file.name, row.repo, row.kind))
  {
    var failures := RowFailures(file, now, overrides, date);
    EachHolds(before, failures, f);
  }

  /** What one file must meet: a merge base, and, where the file was, a text that
      parses now as then, with every cell still as high or excused. */
  ghost predicate Kept(file: DataFile, read: Read, overrides: seq<Override>, date: string) {
    match read
    case NoBase => false
    case Absent => true
    case Present(before) =>
      && file.current.Some?
      && CellsOf(file.shape, before).Some? && CellsOf(file.shape, file.current.value).Some?
      && forall row :: row in CellsOf(file.shape, before).value ==>
           Holds(CellsOf(file.shape, file.current.value).value, row) || Excused(file, row, overrides, date)
  }

  lemma FilePassesExactly(file: DataFile, read: Read, overrides: seq<Override>, date: string)
    ensures FileFailures(file, read, overrides, date) == [] <==> Kept(file, read, overrides, date)
  {
    if read.Present? && file.current.Some? {
      var (was, now) := (CellsOf(file.shape, read.content), CellsOf(file.shape, file.current.value));
      if was.Some? && now.Some? {
        RowsPassExactly(file, was.value, now.value, overrides, date);
      }
    }
  }

  /** The check passes exactly when every file is kept. */
  lemma CheckPassesExactly(files: seq<DataFile>, reader: string -> Read, overrides: seq<Override>, date: string)
    ensures CheckFailures(files, reader, overrides, date) == [] <==>
      forall file :: file in files ==> Kept(file, reader(file.path), overrides, date)
  {
    EachIsEmpty(files, ReadFailures(reader, overrides, date));
    forall file
      ensures ReadFailures(reader, overrides, date)(file) == [] <==> Kept(file, reader(file.path), overrides, date)
    {
      FilePassesExactly(file, reader(file.path), overrides, date);
    }
  }

  // ---- The ratchet over a history of one file.

  /** A version of the file, with the overrides and the date it was checked with. */
  datatype Version = Version(content: Option<Content>, overrides: seq<Override>, date: string)

  function ReadOf(content: Option<Content>): Read {
    if content.Some? then Present(content.value) else Absent
  }

  /** Each version passed the check against the one before it. */
  ghost predicate EachPassed(file: DataFile, history: seq<Version>) {
    forall k :: 0 < k < |history| ==>
      FileFailures(file.(current := history[k].content), ReadOf(history[k - 1].content), history[k].overrides,
        history[k].date) == []
  }

  ghost predicate NeverExcused(history: seq<Version>, id: string) {
    forall k :: 0 < k < |history| ==> Active(history[k].overrides, id, history[k].date).None?
  }

  /** Once there, a checked file is never deleted, and no override allows it. */
  lemma {:induction false} NeverDeleted(file: DataFile, history: seq<Version>)
    requires history != [] && history[0].content.Some? && EachPassed(file, history)
    ensures history[|history| - 1].content.Some?
  {
    if |history| > 1 {
      var n := |history| - 1;
      NeverDeleted(file, history[..n]);
      FilePassesExactly(file.(current := history[n].content), ReadOf(history[n - 1].content), history[n].overrides,
        history[n].date);
    }
  }

  lemma FindIsMember(rows: seq<Row>, repo: string, kind: QueryKind)
    requires Find(rows, repo, kind).Some?
    ensures var found := Find(rows, repo, kind).value; found in rows && found.repo == repo && found.kind == kind
  {
  }

  /** Two checked steps: what the first version holds, the second holds. */
  lemma HoldsOn(file: DataFile, before: seq<Row>, now: seq<Row>, row: Row, overrides: seq<Override>, date: string)
    requires row in before || Holds(before, row)
    requires forall r :: r in before ==> Holds(now, r) || Excused(file, r, overrides, date)
    requires Active(overrides, CellId(file.name, row.repo, row.kind), date).None?
    ensures Holds(now, row)
  {
    if row !in before {
      FindIsMember(before, row.repo, row.kind);
      var first := Find(before, row.repo, row.kind).value;
      assert Holds(now, first) || Excused(file, first, overrides, date);
    }
  }

  lemma StepKeeps(file: DataFile, before: Content, after: Version, row: Row)
    requires FileFailures(file.(current := after.content), Present(before), after.overrides, after.date) == []
    ensures CellsOf(file.shape, before).Some? && after.content.Some? && CellsOf(file.shape, after.content.value).Some?
    ensures (row in CellsOf(file.shape, before).value || Holds(CellsOf(file.shape, before).value, row))
      && Active(after.overrides, CellId(file.name, row.repo, row.kind), after.date).None?
      ==> Holds(CellsOf(file.shape, after.content.value).value, row)
  {
    var now := file.(current := after.content);
    FilePassesExactly(now, Present(before), after.overrides, after.date);
    var (was, rows) := (CellsOf(file.shape, before).value, CellsOf(file.shape, after.content.value).value);
    var id := CellId(file.name, row.repo, row.kind);
    if (row in was || Holds(was, row)) && Active(after.overrides, id, after.date).None? {
      HoldsOn(now, was, rows, row, after.overrides, after.date);
    }
  }

  /** The version is there, parses and holds the row. */
  ghost predicate HeldBy(file: DataFile, version: Version, row: Row) {
    && version.content.Some? && CellsOf(file.shape, version.content.value).Some?
    && Holds(CellsOf(file.shape, version.content.value).value, row)
  }

  lemma {:induction false} RatchetAt(file: DataFile, history: seq<Version>, row: Row, n: nat)
    requires 0 < n < |history| && EachPassed(file, history)
    requires history[0].content.Some? && CellsOf(file.shape, history[0].content.value).Some?
    requires row in CellsOf(file.shape, history[0].content.value).value
    requires NeverExcused(history, CellId(file.name, row.repo, row.kind))
    ensures HeldBy(file, history[n], row)
  {
    var before := history[n - 1];
    if n > 1 {
      RatchetAt(file, history, row, n - 1);
    }
    StepKeeps(file, before.content.value, history[n], row);
  }

  /** A cell of any version, duplicates included, is held by every later version:
      it never disappears, and neither its precision nor its recall ever falls,
      as long as its override is never active. */
  lemma Ratchet(file: DataFile, history: seq<Version>, row: Row, from: nat, to: nat)
    requires from < to < |history| && EachPassed(file, history)
    requires history[from].content.Some? && CellsOf(file.shape, history[from].content.value).Some?
    requires row in CellsOf(file.shape, history[from].content.value).value
    requires NeverExcused(history, CellId(file.name, row.repo, row.kind))
    ensures HeldBy(file, history[to], row)
  {
    RatchetAt(file, history[from..], row, to - from);
  }

  // ---- The cells the gate reads are the ones the ratchet protects.

  lemma {:induction false} FloorReadsFirst(cells: seq<FloorCell>, repo: string, kind: QueryKind)
    ensures Find(FloorRows(cells), repo, kind) ==
      match FindFloor(cells, repo, kind)
      case Some(c) => Some(Row(repo, kind, c.precisionBps, c.recallBps))
      case None => None
  {
    if cells != [] {
      FloorReadsFirst(cells[1..], repo, kind);
      var row := Row(cells[0].repo, cells[0].kind, cells[0].precisionBps, cells[0].recallBps);
      assert ([row] + FloorRows(cells[1..]))[1..] == FloorRows(cells[1..]);
    }
  }

  lemma {:induction false} FindInParts(a: seq<Row>, b: seq<Row>, repo: string, kind: QueryKind)
    ensures Find(a + b, repo, kind) == if Find(a, repo, kind).Some? then Find(a, repo, kind) else Find(b, repo, kind)
  {
    if a == [] {
      assert a + b == b;
    } else {
      FindInParts(a[1..], b, repo, kind);
      assert (a + b)[1..] == a[1..] + b;
    }
  }

  lemma {:induction false} RepoReadsFirst(name: string, cells: seq<Cell>, repo: string, kind: QueryKind)
    ensures Find(CellRows(name, cells), repo, kind) ==
      match FindCell(cells, kind)
      case Some(c) =>
        if name == repo then Some(Row(repo, kind, c.precisionBps.GetOr(0), c.recallBps.GetOr(0))) else None
      case None => None
  {
    if cells != [] {
      RepoReadsFirst(name, cells[1..], repo, kind);
      var row := CellRows(name, cells)[0];
      assert ([row] + CellRows(name, cells[1..]))[1..] == CellRows(name, cells[1..]);
    }
  }

  /** Some row of the repo has a cell of the kind. */
  ghost predicate HasCell(repos: seq<RepoReport>, repo: string, kind: QueryKind) {
    exists k :: 0 <= k < |repos| && repos[k].repo == repo && FindCell(repos[k].cells, kind).Some?
  }

  lemma HasCellParts(first: RepoReport, rest: seq<RepoReport>, repo: string, kind: QueryKind)
    ensures HasCell([first] + rest, repo, kind) <==>
      HasCell(rest, repo, kind) || (first.repo == repo && FindCell(first.cells, kind).Some?)
  {
    var all := [first] + rest;
    assert all[0] == first;
    if HasCell(rest, repo, kind) {
      var k :| 0 <= k < |rest| && rest[k].repo == repo && FindCell(rest[k].cells, kind).Some?;
      assert all[k + 1] == rest[k];
    }
  }

  /** The check finds a cell exactly when some row of the repo has one. */
  lemma {:induction false} CheckFindsExactly(repos: seq<RepoReport>, repo: string, kind: QueryKind)
    ensures Find(BaselineRows(repos), repo, kind).Some? <==> HasCell(repos, repo, kind)
  {
    if repos != [] {
      var (first, rest) := (repos[0], repos[1..]);
      CheckFindsExactly(rest, repo, kind);
      RepoReadsFirst(first.repo, first.cells, repo, kind);
      FindInParts(CellRows(first.repo, first.cells), BaselineRows(rest), repo, kind);
      HasCellParts(first, rest, repo, kind);
      assert repos == [first] + rest;
    }
  }

  function AsRow(cell: Option<Cell>, repo: string, kind: QueryKind): Option<Row> {
    match cell
    case Some(c) => Some(Row(repo, kind, c.precisionBps.GetOr(0), c.recallBps.GetOr(0)))
    case None => None
  }

  /** Where the gate reads a cell, the check protects that one. */
  lemma {:induction false} GateCellIsProtected(b: Baseline, repo: string, kind: QueryKind)
    requires BaselineCell(b, repo, kind).Some?
    ensures Find(BaselineRows(b.repos), repo, kind) == AsRow(BaselineCell(b, repo, kind), repo, kind)
    decreases |b.repos|
  {
    var (first, rest) := (b.repos[0], b.(repos := b.repos[1..]));
    RepoReadsFirst(first.repo, first.cells, repo, kind);
    FindInParts(CellRows(first.repo, first.cells), BaselineRows(rest.repos), repo, kind);
    if first.repo != repo {
      GateCellIsProtected(rest, repo, kind);
    }
  }

  /** The gate and the check read the same baseline cell exactly when the gate
      reads one, or no row of the repo has a cell of that kind. */
  lemma BaselineReadsFirst(b: Baseline, repo: string, kind: QueryKind)
    ensures Find(BaselineRows(b.repos), repo, kind) == AsRow(BaselineCell(b, repo, kind), repo, kind) <==>
      BaselineCell(b, repo, kind).Some? || !HasCell(b.repos, repo, kind)
  {
    CheckFindsExactly(b.repos, repo, kind);
    if BaselineCell(b, repo, kind).Some? {
      GateCellIsProtected(b, repo, kind);
    }
  }

  /** A repo listed twice, first without cells: the gate reads none, and the check
      protects the cell of the second row. */
  lemma SecondRowIsOnlyProtected(b: Baseline, repo: string, cell: Cell)
    requires b.repos == [RepoReport(repo, Measured, []), RepoReport(repo, Measured, [cell])]
    ensures BaselineCell(b, repo, cell.kind) == None
    ensures Find(BaselineRows(b.repos), repo, cell.kind) == AsRow(Some(cell), repo, cell.kind)
  {
    var second := b.repos[1];
    assert b.repos[1..] == [second] && b.repos[1..][1..] == [];
    RepoReadsFirst(repo, [cell], repo, cell.kind);
    RepoReadsFirst(repo, [], repo, cell.kind);
    FindInParts(CellRows(repo, [cell]), [], repo, cell.kind);
    FindInParts(CellRows(repo, []), BaselineRows([second]), repo, cell.kind);
  }
}
