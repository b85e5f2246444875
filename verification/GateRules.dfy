/** What the judge decides, stated without its lists. */
module GateRules {
  import opened Base
  import opened Folds
  import opened Text
  import opened Metrics
  import opened Runner
  import opened Gate

  // ---- The cost rule.

  lemma CeilExceeds(n: nat, d: nat, k: nat)
    requires d > 0
    ensures DivCeil(n, d) > k <==> n > k * d
  {
    if n > k * d {
      assert (k + 1) * d == k * d + d;
      DivAbove(n + d - 1, d, k + 1);
    } else {
      DivBelow(n + d - 1, d, k + 1);
    }
  }

  /** A cost regression is reported exactly when the cost rises past its
      allowance; only a baseline cost that rounds to zero also needs the rise
      itself to pass it. */
  lemma RiseIsReportedExactly(b: nat, c: nat, allowed: nat, repo: string, kind: QueryKind, metric: Metric)
    ensures var rise := Rise(b, c, allowed);
      (rise.Some? && Over(repo, kind, metric, TheBaseline, rise.value.0, rise.value.1) != []) <==>
        c * BASIS_POINTS_PER_UNIT > b * (BASIS_POINTS_PER_UNIT + allowed) &&
        (b == 0 ==> c * BASIS_POINTS_PER_UNIT > allowed)
  {
    if TooDear(b, c, allowed) {
      TooDearRises(b, c, allowed);
      var rise := (c - b) * BASIS_POINTS_PER_UNIT;
      CeilExceeds(rise, Max(b, 1), allowed);
      if b > 0 {
        assert b * (BASIS_POINTS_PER_UNIT + allowed) == b * BASIS_POINTS_PER_UNIT + allowed * b;
      }
    }
  }

  /** With a baseline cost of one or more the first test decides alone, and the
      rounded-up rise it reports is always above its allowance. */
  lemma ReportedRiseExceedsAllowance(b: nat, c: nat, allowed: nat)
    requires b >= 1
    ensures Rise(b, c, allowed).Some? <==> c * BASIS_POINTS_PER_UNIT > b * (BASIS_POINTS_PER_UNIT + allowed)
    ensures Rise(b, c, allowed).Some? ==> Rise(b, c, allowed).value.0 > allowed
  {
    RiseIsReportedExactly(b, c, allowed, "", Symbol, Bytes);
  }

  /** So it does against every baseline cell that the runner wrote, where each
      parsed result takes a byte and a token of the output. */
  lemma RunnerBaselineDecidesAlone(
    r: RepoReport, binary: Binary, job: Job, k: nat, cell: Cell, gain: nat, metric: Metric)
    requires RowOf(r, binary, job) && k < |r.cells| && Bracketed(binary, job, r.cells[k].kind)
    requires r.cells[k].correct > 0 && cell.correct > 0
    ensures var base := r.cells[k];
      var (b, c) := (RoundDiv(CostOf(base, metric), base.correct), RoundDiv(CostOf(cell, metric), cell.correct));
      CostFailure(r.repo, base, cell, gain, metric) != [] <==>
        c * BASIS_POINTS_PER_UNIT > b * (BASIS_POINTS_PER_UNIT + Allowed(gain))
  {
    var base := r.cells[k];
    CostsAreNotZero(r, binary, job, k);
    var (b, c) := (RoundDiv(CostOf(base, metric), base.correct), RoundDiv(CostOf(cell, metric), cell.correct));
    RiseIsReportedExactly(b, c, Allowed(gain), r.repo, cell.kind, metric);
  }

  // ---- The terms of the rule.

  /** An override that is in force for a cell. */
  predicate Grants(o: Override, repo: string, kind: QueryKind, runDate: string) {
    LexLeq(runDate, o.expires) && o.repo == Some(repo) && o.kind == Some(kind)
  }

  /** The total of a number over all overrides that are in force for a cell. */
  function Granted(
    overrides: seq<Override>, drop: Override -> nat, repo: string, kind: QueryKind, runDate: string): nat
  {
    if overrides == [] then 0
    else
      var last := overrides[|overrides| - 1];
      Granted(overrides[..|overrides| - 1], drop, repo, kind, runDate)
      + if Grants(last, repo, kind, runDate) then drop(last) else 0
  }

  /** The drops all overrides in force allow a cell. */
  function Drops(overrides: seq<Override>, repo: string, kind: QueryKind, runDate: string): (nat, nat) {
    (Granted(overrides, (o: Override) => o.precisionDropBps, repo, kind, runDate),
     Granted(overrides, (o: Override) => o.recallDropBps, repo, kind, runDate))
  }

  lemma {:induction false} GrantedFirst(
    overrides: seq<Override>, drop: Override -> nat, repo: string, kind: QueryKind, runDate: string)
    requires overrides != []
    ensures Granted(overrides, drop, repo, kind, runDate) ==
      Granted(overrides[1..], drop, repo, kind, runDate)
      + if Grants(overrides[0], repo, kind, runDate) then drop(overrides[0]) else 0
  {
    var n := |overrides| - 1;
    if n > 0 {
      GrantedFirst(overrides[..n], drop, repo, kind, runDate);
      assert overrides[..n][1..] == overrides[1..][..n - 1];
    }
  }

  /** The allowed drops are the totals over exactly the overrides in force, the
      precision drops and the recall drops apart. */
  lemma {:induction false} DeltaIsGranted(overrides: seq<Override>, repo: string, kind: QueryKind, runDate: string)
    ensures Delta(overrides, repo, kind, runDate) == Drops(overrides, repo, kind, runDate)
  {
    if overrides != [] {
      DeltaIsGranted(overrides[1..], repo, kind, runDate);
      GrantedFirst(overrides, (o: Override) => o.precisionDropBps, repo, kind, runDate);
      GrantedFirst(overrides, (o: Override) => o.recallDropBps, repo, kind, runDate);
    }
  }

  /** What the shares gained pays for: two basis points of cost for each one of
      them, and half a percent without a gain. A share that fell takes nothing off. */
  lemma AllowedForGain(base: Cell, cell: Cell)
    ensures var (p0, p1) := (base.precisionBps.GetOr(0), cell.precisionBps.GetOr(0));
      var (r0, r1) := (base.recallBps.GetOr(0), cell.recallBps.GetOr(0));
      var gain := GainOf(base, cell);
      && gain + Min(p0, p1) + Min(r0, r1) == p1 + r1
      && Allowed(gain) == if p1 <= p0 && r1 <= r0 then 50 else 2 * gain
  {
  }

  /** An override with an id is in force exactly when one of the list is. */
  lemma {:induction false} ActiveExactly(overrides: seq<Override>, id: string, runDate: string)
    ensures Active(overrides, id, runDate).Some? <==>
      exists o :: o in overrides && o.id == id && LexLeq(runDate, o.expires)
  {
    if overrides != [] {
      ActiveExactly(overrides[1..], id, runDate);
      assert overrides == [overrides[0]] + overrides[1..];
    }
  }

  // ---- The rule of the whole gate.

  predicate CostWithin(base: Cell, cell: Cell, metric: Metric) {
    base.correct > 0 && cell.correct > 0 ==>
      var (b, c) := (RoundDiv(CostOf(base, metric), base.correct), RoundDiv(CostOf(cell, metric), cell.correct));
      var allowed := Allowed(GainOf(base, cell));
      || c * BASIS_POINTS_PER_UNIT <= b * (BASIS_POINTS_PER_UNIT + allowed)
      || (b == 0 && c * BASIS_POINTS_PER_UNIT <= allowed)
  }

  /** The cell is within its allowed drop of the baseline and the floor, and
      within its allowed cost rise. */
  predicate CellWithin(i: Inputs, repo: string, cell: Cell) {
    var (dp, dr) := Drops(i.overrides, repo, cell.kind, i.runDate);
    var (p, r) := (cell.precisionBps.GetOr(0), cell.recallBps.GetOr(0));
    var (base, floor) := (BaselineCell(i.baseline, repo, cell.kind), FindFloor(i.floor.cells, repo, cell.kind));
    && (base.Some? ==>
          && base.value.precisionBps.GetOr(0) <= p + dp && base.value.recallBps.GetOr(0) <= r + dr
          && CostWithin(base.value, cell, Bytes) && CostWithin(base.value, cell, TokensMetric))
    && (floor.Some? ==> floor.value.precisionBps <= p + dp && floor.value.recallBps <= r + dr)
  }

  lemma CostFailureExactly(repo: string, base: Cell, cell: Cell, metric: Metric)
    ensures CostFailure(repo, base, cell, GainOf(base, cell), metric) == [] <==> CostWithin(base, cell, metric)
  {
    if base.correct > 0 && cell.correct > 0 {
      var (b, c) := (RoundDiv(CostOf(base, metric), base.correct), RoundDiv(CostOf(cell, metric), cell.correct));
      RiseIsReportedExactly(b, c, Allowed(GainOf(base, cell)), repo, cell.kind, metric);
    }
  }

  lemma CellPassesExactly(i: Inputs, repo: string, cell: Cell)
    ensures CellFailures(i, repo, cell) == [] <==> CellWithin(i, repo, cell)
  {
    DeltaIsGranted(i.overrides, repo, cell.kind, i.runDate);
    var base := BaselineCell(i.baseline, repo, cell.kind);
    if base.Some? {
      CostFailureExactly(repo, base.value, cell, Bytes);
      CostFailureExactly(repo, base.value, cell, TokensMetric);
    }
  }

  /** A baseline of one repo and one cell, whose cost rounds to zero. */
  predicate OnlyCell(i: Inputs, repo: string, base: Cell) {
    && i.baseline.repos == [RepoReport(repo, Measured, [base])]
    && i.floor.cells == [] && i.overrides == []
  }

  lemma OnlyCellIsRead(i: Inputs, repo: string, base: Cell)
    requires OnlyCell(i, repo, base)
    ensures BaselineCell(i.baseline, repo, base.kind) == Some(base)
    ensures FindFloor(i.floor.cells, repo, base.kind) == None
    ensures Delta(i.overrides, repo, base.kind, i.runDate) == (0, 0)
  {
    assert i.baseline.repos[0].cells == [base];
  }

  /** From a cost of zero, a rise within the allowance itself is not reported. */
  lemma ZeroCostIsSilent(repo: string, base: Cell, cell: Cell, metric: Metric, cost: nat)
    requires base.correct > 0 && RoundDiv(CostOf(base, metric), base.correct) == 0
    requires cell.correct > 0 && RoundDiv(CostOf(cell, metric), cell.correct) == cost
    requires cost * BASIS_POINTS_PER_UNIT <= Allowed(GainOf(base, cell))
    ensures CostFailure(repo, base, cell, GainOf(base, cell), metric) == []
  {
    CostFailureExactly(repo, base, cell, metric);
  }

  lemma NothingFell(repo: string, base: Cell, cell: Cell)
    requires base.precisionBps.GetOr(0) <= cell.precisionBps.GetOr(0)
    requires base.recallBps.GetOr(0) <= cell.recallBps.GetOr(0)
    requires CostFailure(repo, base, cell, GainOf(base, cell), Bytes) == []
    requires CostFailure(repo, base, cell, GainOf(base, cell), TokensMetric) == []
    ensures CellFailuresWith(repo, cell, Some(base), None, 0, 0) == []
  {
  }

  /** The bytes per correct result rise from zero, the tokens stay at zero, and
      the shares rise enough to allow it. */
  predicate RisesFromZero(base: Cell, cell: Cell, cost: nat) {
    && base.kind == cell.kind && base.correct > 0 && cell.correct > 0
    && RoundDiv(base.bytes, base.correct) == 0 && RoundDiv(cell.bytes, cell.correct) == cost > 0
    && RoundDiv(base.tokens, base.correct) == 0 && RoundDiv(cell.tokens, cell.correct) == 0
    && base.precisionBps.GetOr(0) <= cell.precisionBps.GetOr(0) && base.recallBps.GetOr(0) <= cell.recallBps.GetOr(0)
    && cost * BASIS_POINTS_PER_UNIT <= Allowed(GainOf(base, cell))
  }

  /** A baseline cost that rounds to zero can rise, past any share of itself,
      without a failure of the cell. */
  lemma ZeroBaselineCanRise(i: Inputs, repo: string, base: Cell, cell: Cell, cost: nat)
    requires OnlyCell(i, repo, base) && RisesFromZero(base, cell, cost)
    ensures TooDear(0, cost, Allowed(GainOf(base, cell)))
    ensures CellFailures(i, repo, cell) == []
  {
    OnlyCellIsRead(i, repo, base);
    ZeroCostIsSilent(repo, base, cell, Bytes, cost);
    ZeroCostIsSilent(repo, base, cell, TokensMetric, 0);
    NothingFell(repo, base, cell);
  }

  /** Such cells: ten correct results in one byte, then forty in forty bytes. */
  lemma SomeRiseFromZero(base: Cell, cell: Cell)
    requires base == Cell(Symbol, 20, 0, Some(1_000), Some(1_000), 10, 1, 0, Some(0))
    requires cell == Cell(Symbol, 20, 0, Some(4_000), Some(4_000), 40, 40, 0, Some(1))
    ensures RisesFromZero(base, cell, 1)
  {
  }

  /** A cell counts when it has enough tasks; else it must be listed. */
  predicate CellPasses(i: Inputs, repo: string, cell: Cell) {
    if cell.tasks >= i.minTasksPerCell then CellWithin(i, repo, cell)
    else Waived(i.baseline, repo, Some(cell.kind))
  }

  ghost predicate RowPasses(i: Inputs, row: RepoReport) {
    Waived(i.baseline, row.repo, None) ||
    (row.status == Measured && forall k :: 0 <= k < |row.cells| ==> CellPasses(i, row.repo, row.cells[k]))
  }

  ghost predicate Rule(i: Inputs) {
    && i.baseline.tasksVersion == i.report.tasksVersion
    && (forall k :: 0 <= k < |i.priorTaskIds| ==>
          i.priorTaskIds[k] in i.taskIds || Active(i.overrides, "task-removed:" + i.priorTaskIds[k], i.runDate).Some?)
    && (forall k :: 0 <= k < |i.report.repos| ==> RowPasses(i, i.report.repos[k]))
    && (forall k :: 0 <= k < |i.baseline.repos| ==>
          Reported(i, i.baseline.repos[k].repo) || Waived(i.baseline, i.baseline.repos[k].repo, None))
  }

  lemma OneCellExactly(i: Inputs, repo: string, cell: Cell)
    ensures OneCell(i, repo, cell) == [] <==> CellPasses(i, repo, cell)
  {
    CellPassesExactly(i, repo, cell);
  }

  lemma CellsPassExactly(i: Inputs, repo: string, cells: seq<Cell>)
    ensures CellsFailures(i, repo, cells) == [] <==> forall k :: 0 <= k < |cells| ==> CellPasses(i, repo, cells[k])
  {
    var finder := CellFinder(i, repo);
    EachIsEmpty(cells, finder);
    forall k | 0 <= k < |cells| ensures finder(cells[k]) == [] <==> CellPasses(i, repo, cells[k]) {
      OneCellExactly(i, repo, cells[k]);
    }
  }

  lemma RowPassesExactly(i: Inputs, row: RepoReport)
    ensures RepoFailures(i, row) == [] <==> RowPasses(i, row)
  {
    CellsPassExactly(i, row.repo, row.cells);
  }

  lemma RowsPassExactly(i: Inputs, side: Side, rows: seq<RepoReport>)
    ensures RowsFailures(i, side, rows) == [] <==>
      forall k :: 0 <= k < |rows| ==> RowFailures(i, side, rows[k]) == []
  {
    var finder := RowFinder(i, side);
    EachIsEmpty(rows, finder);
    forall k | 0 <= k < |rows| ensures finder(rows[k]) == RowFailures(i, side, rows[k]) {
    }
  }

  lemma RemovedPassExactly(i: Inputs, ids: seq<string>)
    ensures RemovedFailures(i, ids) == [] <==>
      forall k :: 0 <= k < |ids| ==>
        ids[k] in i.taskIds || Active(i.overrides, "task-removed:" + ids[k], i.runDate).Some?
  {
    var finder := RemovedFinder(i);
    EachIsEmpty(ids, finder);
    forall k | 0 <= k < |ids| ensures finder(ids[k]) == RemovedFailure(i, ids[k]) {
    }
  }

  /** The gate passes exactly when its rule holds. */
  lemma GatePassesExactly(i: Inputs)
    ensures Failures(i) == [] <==> Rule(i)
  {
    RemovedPassExactly(i, i.priorTaskIds);
    RowsPassExactly(i, InReport, i.report.repos);
    RowsPassExactly(i, InBaseline, i.baseline.repos);
    forall k | 0 <= k < |i.report.repos|
      ensures RowFailures(i, InReport, i.report.repos[k]) == [] <==> RowPasses(i, i.report.repos[k])
    {
      RowPassesExactly(i, i.report.repos[k]);
    }
  }

  /** A passing gate on a report of the runner loses nothing of the baseline:
      every repo of it that is not listed as skipped is measured, and every cell
      the baseline holds is there again, listed as unmeasured or within its
      allowances. */
  lemma PassingKeepsTheBaseline(i: Inputs, base: RepoReport, kind: QueryKind)
    requires Failures(i) == [] && base in i.baseline.repos && !Waived(i.baseline, base.repo, None)
    requires forall k :: 0 <= k < |i.report.repos| ==> WellShaped(i.report.repos[k])
    ensures exists row ::
      && row in i.report.repos && row.repo == base.repo && row.status == Measured
      && exists cell :: cell in row.cells && cell.kind == kind && CellPasses(i, base.repo, cell)
  {
    GatePassesExactly(i);
    var b :| 0 <= b < |i.baseline.repos| && i.baseline.repos[b] == base;
    assert Reported(i, i.baseline.repos[b].repo);
    var k :| 0 <= k < |i.report.repos| && i.report.repos[k].repo == base.repo;
    var row := i.report.repos[k];
    assert RowPasses(i, row) && WellShaped(row);
    var n := if kind == Symbol then 0 else 1;
    assert row.cells[n] in row.cells && CellPasses(i, base.repo, row.cells[n]);
    assert row in i.report.repos;
  }

  // ---- A later run date only adds failures.

  /** A failure without its numbers. */
  function Key(f: Failure): Failure {
    if f.Regression? then f.(observed := 0, allowed := 0) else f
  }

  function Keys(found: seq<Failure>): set<Failure> {
    set f | f in found :: Key(f)
  }

  /** Every failure of one list is in the other, up to its numbers. */
  ghost predicate KeysWithin(some: seq<Failure>, all: seq<Failure>) {
    Keys(some) <= Keys(all)
  }

  lemma KeysOfParts(a: seq<Failure>, b: seq<Failure>, c: seq<Failure>, d: seq<Failure>)
    requires KeysWithin(a, c) && KeysWithin(b, d)
    ensures KeysWithin(a + b, c + d)
  {
    assert Keys(a + b) == Keys(a) + Keys(b) && Keys(c + d) == Keys(c) + Keys(d);
  }

  lemma OverGrows(repo: string, kind: QueryKind, metric: Metric, against: Against, observed: nat, allowed: nat,
                  less: nat)
    requires less <= allowed
    ensures KeysWithin(Over(repo, kind, metric, against, observed, allowed),
      Over(repo, kind, metric, against, observed, less))
  {
    if observed > allowed {
      var (f, g) := (Over(repo, kind, metric, against, observed, allowed)[0],
        Over(repo, kind, metric, against, observed, less)[0]);
      assert Keys([f]) == {Key(f)} && Keys([g]) == {Key(g)};
    }
  }

  lemma {:induction false} DeltaShrinks(overrides: seq<Override>, repo: string, kind: QueryKind, date: string,
                                        later: string)
    requires LexLeq(date, later)
    ensures Delta(overrides, repo, kind, later).0 <= Delta(overrides, repo, kind, date).0
    ensures Delta(overrides, repo, kind, later).1 <= Delta(overrides, repo, kind, date).1
  {
    if overrides != [] {
      DeltaShrinks(overrides[1..], repo, kind, date, later);
      if Unexpired(overrides[0], later) {
        LexTransitive(date, later, overrides[0].expires);
      }
    }
  }

  lemma {:induction false} ActiveShrinks(overrides: seq<Override>, id: string, date: string, later: string)
    requires LexLeq(date, later) && Active(overrides, id, later).Some?
    ensures Active(overrides, id, date).Some?
  {
    if overrides[0].id == id && Unexpired(overrides[0], later) {
      LexTransitive(date, later, overrides[0].expires);
    } else {
      ActiveShrinks(overrides[1..], id, date, later);
    }
  }

  lemma BaselineGrows(repo: string, base: Cell, cell: Cell, dp: nat, dr: nat, lp: nat, lr: nat)
    requires lp <= dp && lr <= dr
    ensures KeysWithin(BaselineFailures(repo, base, cell, dp, dr), BaselineFailures(repo, base, cell, lp, lr))
  {
    var (p, r) := (SatSub(base.precisionBps.GetOr(0), cell.precisionBps.GetOr(0)),
                   SatSub(base.recallBps.GetOr(0), cell.recallBps.GetOr(0)));
    OverGrows(repo, cell.kind, PrecisionMetric, TheBaseline, p, PRECISION_DROP_TOLERANCE + dp,
      PRECISION_DROP_TOLERANCE + lp);
    OverGrows(repo, cell.kind, RecallMetric, TheBaseline, r, RECALL_DROP_TOLERANCE + dr, RECALL_DROP_TOLERANCE + lr);
    var (b, t) := (CostFailure(repo, base, cell, GainOf(base, cell), Bytes),
                   CostFailure(repo, base, cell, GainOf(base, cell), TokensMetric));
    var p0 := Over(repo, cell.kind, PrecisionMetric, TheBaseline, p, PRECISION_DROP_TOLERANCE + dp);
    var r0 := Over(repo, cell.kind, RecallMetric, TheBaseline, r, RECALL_DROP_TOLERANCE + dr);
    var p1 := Over(repo, cell.kind, PrecisionMetric, TheBaseline, p, PRECISION_DROP_TOLERANCE + lp);
    var r1 := Over(repo, cell.kind, RecallMetric, TheBaseline, r, RECALL_DROP_TOLERANCE + lr);
    KeysOfParts(p0, r0, p1, r1);
    KeysOfParts(p0 + r0, b, p1 + r1, b);
    KeysOfParts(p0 + r0 + b, t, p1 + r1 + b, t);
  }

  lemma FloorGrows(repo: string, floor: FloorCell, cell: Cell, dp: nat, dr: nat, lp: nat, lr: nat)
    requires lp <= dp && lr <= dr
    ensures KeysWithin(FloorFailures(repo, floor, cell, dp, dr), FloorFailures(repo, floor, cell, lp, lr))
  {
    var (p, r) := (SatSub(floor.precisionBps, cell.precisionBps.GetOr(0)),
      SatSub(floor.recallBps, cell.recallBps.GetOr(0)));
    OverGrows(repo, cell.kind, PrecisionMetric, TheFloor, p, dp, lp);
    OverGrows(repo, cell.kind, RecallMetric, TheFloor, r, dr, lr);
    KeysOfParts(Over(repo, cell.kind, PrecisionMetric, TheFloor, p, dp),
      Over(repo, cell.kind, RecallMetric, TheFloor, r, dr),
      Over(repo, cell.kind, PrecisionMetric, TheFloor, p, lp),
      Over(repo, cell.kind, RecallMetric, TheFloor, r, lr));
  }

  lemma CellGrows(i: Inputs, later: string, repo: string, cell: Cell)
    requires LexLeq(i.runDate, later)
    ensures KeysWithin(CellFailures(i, repo, cell), CellFailures(i.(runDate := later), repo, cell))
  {
    var (dp, dr) := Delta(i.overrides, repo, cell.kind, i.runDate);
    var (lp, lr) := Delta(i.overrides, repo, cell.kind, later);
    DeltaShrinks(i.overrides, repo, cell.kind, i.runDate, later);
    var (base, floor) := (BaselineCell(i.baseline, repo, cell.kind), FindFloor(i.floor.cells, repo, cell.kind));
    if base.Some? {
      BaselineGrows(repo, base.value, cell, dp, dr, lp, lr);
    }
    if floor.Some? {
      FloorGrows(repo, floor.value, cell, dp, dr, lp, lr);
    }
    KeysOfParts(if base.Some? then BaselineFailures(repo, base.value, cell, dp, dr) else [],
                if floor.Some? then FloorFailures(repo, floor.value, cell, dp, dr) else [],
                if base.Some? then BaselineFailures(repo, base.value, cell, lp, lr) else [],
                if floor.Some? then FloorFailures(repo, floor.value, cell, lp, lr) else []);
  }

  lemma OneCellGrows(i: Inputs, later: string, repo: string, cell: Cell)
    requires LexLeq(i.runDate, later)
    ensures KeysWithin(OneCell(i, repo, cell), OneCell(i.(runDate := later), repo, cell))
  {
    CellGrows(i, later, repo, cell);
  }

  lemma {:induction false} EachGrows<T>(items: seq<T>, some: T -> seq<Failure>, all: T -> seq<Failure>)
    requires forall item :: item in items ==> KeysWithin(some(item), all(item))
    ensures KeysWithin(Each(items, some), Each(items, all))
  {
    if items != [] {
      var (front, last) := (items[..|items| - 1], items[|items| - 1]);
      assert items == front + [last];
      EachGrows(front, some, all);
      KeysOfParts(Each(front, some), some(last), Each(front, all), all(last));
    }
  }

  lemma CellsGrow(i: Inputs, later: string, repo: string, cells: seq<Cell>)
    requires LexLeq(i.runDate, later)
    ensures KeysWithin(CellsFailures(i, repo, cells), CellsFailures(i.(runDate := later), repo, cells))
  {
    var (some, all) := (CellFinder(i, repo), CellFinder(i.(runDate := later), repo));
    forall cell | cell in cells ensures KeysWithin(some(cell), all(cell)) {
      OneCellGrows(i, later, repo, cell);
    }
    EachGrows(cells, some, all);
  }

  lemma RowGrows(i: Inputs, later: string, side: Side, row: RepoReport)
    requires LexLeq(i.runDate, later)
    ensures KeysWithin(RowFailures(i, side, row), RowFailures(i.(runDate := later), side, row))
  {
    CellsGrow(i, later, row.repo, row.cells);
  }

  lemma RowsGrow(i: Inputs, later: string, side: Side, rows: seq<RepoReport>)
    requires LexLeq(i.runDate, later)
    ensures KeysWithin(RowsFailures(i, side, rows), RowsFailures(i.(runDate := later), side, rows))
  {
    var (some, all) := (RowFinder(i, side), RowFinder(i.(runDate := later), side));
    forall row | row in rows ensures KeysWithin(some(row), all(row)) {
      RowGrows(i, later, side, row);
    }
    EachGrows(rows, some, all);
  }

  lemma RemovedGrow(i: Inputs, later: string, ids: seq<string>)
    requires LexLeq(i.runDate, later)
    ensures KeysWithin(RemovedFailures(i, ids), RemovedFailures(i.(runDate := later), ids))
  {
    var (some, all) := (RemovedFinder(i), RemovedFinder(i.(runDate := later)));
    forall id | id in ids ensures KeysWithin(some(id), all(id)) {
      var key := "task-removed:" + id;
      if Active(i.overrides, key, later).Some? {
        ActiveShrinks(i.overrides, key, i.runDate, later);
      }
    }
    EachGrows(ids, some, all);
  }

  lemma GlobalGrows(i: Inputs, later: string)
    requires LexLeq(i.runDate, later)
    ensures KeysWithin(GlobalFailures(i), GlobalFailures(i.(runDate := later)))
  {
    var j := i.(runDate := later);
    RemovedGrow(i, later, i.priorTaskIds);
    KeysOfParts(VersionFailure(i), RemovedFailures(i, i.priorTaskIds), VersionFailure(j),
      RemovedFailures(j, i.priorTaskIds));
  }

  /** Running the same gate on a later date keeps every failure: overrides only
      expire. */
  lemma LaterDateOnlyAdds(i: Inputs, later: string)
    requires LexLeq(i.runDate, later)
    ensures KeysWithin(Failures(i), Failures(i.(runDate := later)))
  {
    var j := i.(runDate := later);
    GlobalGrows(i, later);
    RowsGrow(i, later, InReport, i.report.repos);
    RowsGrow(i, later, InBaseline, i.baseline.repos);
    var (r0, r1) := (RowsFailures(i, InReport, i.report.repos), RowsFailures(j, InReport, i.report.repos));
    var (b0, b1) := (RowsFailures(i, InBaseline, i.baseline.repos), RowsFailures(j, InBaseline, i.baseline.repos));
    KeysOfParts(GlobalFailures(i), r0, GlobalFailures(j), r1);
    KeysOfParts(GlobalFailures(i) + r0, b0, GlobalFailures(j) + r1, b1);
  }
}
